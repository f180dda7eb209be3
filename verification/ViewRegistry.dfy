/** The registry of render-target and depth views: a map from descriptor handle to view, and per resource
    four counters of typed base-mip views that must always agree with the map. */
module ViewRegistry {
  const RTV_CAPACITY: nat := 65536
  const DSV_CAPACITY: nat := 16384
  const RANGE_LIMIT: nat := 4096
  const COPY_LIMIT: nat := 65536
  const ADDRESSES: nat := 0x1_0000_0000_0000_0000

  /** R8G8B8A8 and B8G8R8A8, plain and sRGB, by their DXGI numbers. */
  const TYPED_FORMATS: seq<nat> := [28, 29, 87, 91]

  datatype View = NoView | View(resource: nat, format: nat, mip: nat, recovered: bool)

  type Counters = c: seq<nat> | |c| == 4 witness [0, 0, 0, 0]

  /** Handles to views and depth formats; counters by resource. */
  datatype Maps = Maps(rtvs: map<nat, View>, dsvs: map<nat, nat>, refs: seq<Counters>)

  predicate Known(v: View, n: nat) { v.View? && v.resource < n }

  predicate MapsOk(m: Maps) {
    forall h | h in m.rtvs :: Known(m.rtvs[h], |m.refs|)
  }

  // ----- accounting -----

  /** This view counts toward counter `i` of resource `r`. */
  predicate Typed(v: View, r: nat, i: nat)
    requires i < 4
  {
    v.View? && v.resource == r && v.mip == 0 && !v.recovered && v.format == TYPED_FORMATS[i]
  }

  function TypedHandles(rtvs: map<nat, View>, r: nat, i: nat): set<nat>
    requires i < 4
  {
    set h | h in rtvs && Typed(rtvs[h], r, i)
  }

  /** Each counter is the number of map entries of that resource, base mip, not recovered, with that format. */
  ghost predicate Agrees(m: Maps) {
    MapsOk(m) && forall r, i | 0 <= r < |m.refs| && 0 <= i < 4 :: m.refs[r][i] == |TypedHandles(m.rtvs, r, i)|
  }

  /** One counter after accounting a view; a decrement at zero saturates. */
  function Bump(count: nat, v: View, r: nat, i: nat, add: bool): nat
    requires i < 4
  {
    if !Typed(v, r, i) then count else if add then count + 1 else if count > 0 then count - 1 else 0
  }

  function Accounted(refs: seq<Counters>, v: View, add: bool): seq<Counters>
    requires v.View? ==> v.resource < |refs|
  {
    if v.NoView? then refs
    else
      var c := refs[v.resource];
      refs[v.resource := [Bump(c[0], v, v.resource, 0, add), Bump(c[1], v, v.resource, 1, add),
                          Bump(c[2], v, v.resource, 2, add), Bump(c[3], v, v.resource, 3, add)]]
  }

  lemma AccountedAt(refs: seq<Counters>, v: View, add: bool, r: nat, i: nat)
    requires (v.View? ==> v.resource < |refs|) && r < |refs| && i < 4
    ensures |Accounted(refs, v, add)| == |refs| && Accounted(refs, v, add)[r][i] == Bump(refs[r][i], v, r, i, add)
  {
  }

  /** What replacing one handle's view does; NoView stands for a view without a resource. */
  function Replaced(m: Maps, handle: nat, v: View): Maps
    requires MapsOk(m) && (v.View? ==> v.resource < |m.refs|)
  {
    var known := handle in m.rtvs;
    var refs := if known then Accounted(m.refs, m.rtvs[handle], false) else m.refs;
    if v.View? && (known || |m.rtvs| < RTV_CAPACITY) then
      m.(rtvs := m.rtvs[handle := v], refs := Accounted(refs, v, true))
    else if known then m.(rtvs := m.rtvs - {handle}, refs := refs)
    else m
  }

  function Cleared(m: Maps): Maps {
    m.(rtvs := map[], refs := seq(|m.refs|, r => [0, 0, 0, 0]))
  }

  // ----- agreement -----

  lemma RemovedHandle(rtvs: map<nat, View>, handle: nat, r: nat, i: nat)
    requires i < 4 && handle in rtvs
    ensures Typed(rtvs[handle], r, i) ==> |TypedHandles(rtvs, r, i)| > 0
    ensures |TypedHandles(rtvs - {handle}, r, i)| == Bump(|TypedHandles(rtvs, r, i)|, rtvs[handle], r, i, false)
  {
    var before, after := TypedHandles(rtvs, r, i), TypedHandles(rtvs - {handle}, r, i);
    if Typed(rtvs[handle], r, i) {
      assert handle in before;
      assert after == before - {handle};
    } else {
      assert after == before;
    }
  }

  lemma AddedHandle(rtvs: map<nat, View>, handle: nat, v: View, r: nat, i: nat)
    requires i < 4 && handle !in rtvs
    ensures |TypedHandles(rtvs[handle := v], r, i)| == Bump(|TypedHandles(rtvs, r, i)|, v, r, i, true)
  {
    var before, after := TypedHandles(rtvs, r, i), TypedHandles(rtvs[handle := v], r, i);
    assert after == if Typed(v, r, i) then before + {handle} else before;
  }

  /** Dropping a handle with accounting keeps agreement, and the decrement never saturates. */
  lemma DropAgrees(m: Maps, handle: nat)
    requires Agrees(m) && handle in m.rtvs
    ensures Agrees(m.(rtvs := m.rtvs - {handle}, refs := Accounted(m.refs, m.rtvs[handle], false)))
    ensures forall i | 0 <= i < 4 && Typed(m.rtvs[handle], m.rtvs[handle].resource, i) :: m.refs[m.rtvs[handle].resource][i] > 0
  {
    hide Typed, TypedHandles, Bump, Accounted;
    var v := m.rtvs[handle];
    var after := m.(rtvs := m.rtvs - {handle}, refs := Accounted(m.refs, v, false));
    AccountedAt(m.refs, v, false, v.resource, 0);
    forall r, i | 0 <= r < |m.refs| && 0 <= i < 4
      ensures |after.refs| == |m.refs| && after.refs[r][i] == |TypedHandles(after.rtvs, r, i)|
      ensures Typed(v, r, i) ==> m.refs[r][i] > 0
    {
      AccountedAt(m.refs, v, false, r, i);
      RemovedHandle(m.rtvs, handle, r, i);
    }
  }

  lemma AddAgrees(m: Maps, handle: nat, v: View)
    requires Agrees(m) && handle !in m.rtvs && Known(v, |m.refs|)
    ensures Agrees(m.(rtvs := m.rtvs[handle := v], refs := Accounted(m.refs, v, true)))
  {
    hide Typed, TypedHandles, Bump, Accounted;
    var after := m.(rtvs := m.rtvs[handle := v], refs := Accounted(m.refs, v, true));
    AccountedAt(m.refs, v, true, v.resource, 0);
    forall r, i | 0 <= r < |m.refs| && 0 <= i < 4
      ensures |after.refs| == |m.refs| && after.refs[r][i] == |TypedHandles(after.rtvs, r, i)|
    {
      AccountedAt(m.refs, v, true, r, i);
      AddedHandle(m.rtvs, handle, v, r, i);
    }
  }

  lemma AccountedLength(refs: seq<Counters>, v: View, add: bool)
    requires v.View? ==> v.resource < |refs|
    ensures |Accounted(refs, v, add)| == |refs|
  {
  }

  /** Replacing, adding or dropping one view keeps every counter equal to the scan. */
  lemma ReplaceAgrees(m: Maps, handle: nat, v: View)
    requires Agrees(m) && (v.View? ==> v.resource < |m.refs|)
    ensures Agrees(Replaced(m, handle, v)) && |Replaced(m, handle, v).refs| == |m.refs|
    ensures |m.rtvs| <= 65536 ==> |Replaced(m, handle, v).rtvs| <= 65536
  {
    hide Accounted, TypedHandles;
    var n := Replaced(m, handle, v);
    if handle in m.rtvs {
      DropAgrees(m, handle);
      AccountedLength(m.refs, m.rtvs[handle], false);
      var dropped := m.(rtvs := m.rtvs - {handle}, refs := Accounted(m.refs, m.rtvs[handle], false));
      if v.View? {
        AddAgrees(dropped, handle, v);
        AccountedLength(dropped.refs, v, true);
        assert dropped.rtvs[handle := v] == m.rtvs[handle := v];
        assert m.rtvs[handle := v].Keys == m.rtvs.Keys;
      } else {
        assert m.rtvs.Keys - {handle} == (m.rtvs - {handle}).Keys;
      }
    } else if v.View? && |m.rtvs| < RTV_CAPACITY {
      AddAgrees(m, handle, v);
      AccountedLength(m.refs, v, true);
      assert m.rtvs[handle := v].Keys == m.rtvs.Keys + {handle};
    }
  }

  lemma ClearAgrees(m: Maps)
    requires MapsOk(m)
    ensures Agrees(Cleared(m))
  {
    var c := Cleared(m);
    forall r, i | 0 <= r < |c.refs| && 0 <= i < 4 ensures c.refs[r][i] == |TypedHandles(c.rtvs, r, i)| {
      assert TypedHandles(c.rtvs, r, i) == {};
    }
  }

  /** Agreement determines the counters. */
  lemma AgreementUnique(m: Maps, n: Maps)
    requires Agrees(m) && Agrees(n) && m.rtvs == n.rtvs && |m.refs| == |n.refs|
    ensures m.refs == n.refs
  {
    forall r | 0 <= r < |m.refs| ensures m.refs[r] == n.refs[r] {
      assert forall i | 0 <= i < 4 :: m.refs[r][i] == n.refs[r][i];
    }
  }

  /** Entries that count nowhere may go without accounting. */
  lemma RecoveredUncounted(m: Maps, gone: set<nat>)
    requires Agrees(m) && forall h | h in gone && h in m.rtvs :: m.rtvs[h].recovered
    ensures Agrees(m.(rtvs := m.rtvs - gone))
  {
    forall r, i | 0 <= r < |m.refs| && 0 <= i < 4 ensures m.refs[r][i] == |TypedHandles(m.rtvs - gone, r, i)| {
      assert TypedHandles(m.rtvs - gone, r, i) == TypedHandles(m.rtvs, r, i);
    }
  }

  // ----- copying -----

  /** One descriptor copied; a source that is not tracked leaves the destination untracked. */
  function CopiedOne(m: Maps, dest: nat, src: nat, rtv: bool): Maps
    requires MapsOk(m)
  {
    if rtv then
      Replaced(m, dest, if src in m.rtvs then m.rtvs[src] else NoView)
    else if src in m.dsvs && |m.dsvs| < DSV_CAPACITY then m.(dsvs := m.dsvs[dest := m.dsvs[src]])
    else m.(dsvs := m.dsvs - {dest})
  }

  lemma CopiedOneOk(m: Maps, dest: nat, src: nat, rtv: bool)
    requires MapsOk(m)
    ensures MapsOk(CopiedOne(m, dest, src, rtv)) && |CopiedOne(m, dest, src, rtv).refs| == |m.refs|
    ensures Agrees(m) ==> Agrees(CopiedOne(m, dest, src, rtv))
  {
    hide Bump;
    if rtv {
      var v := if src in m.rtvs then m.rtvs[src] else NoView;
      if Agrees(m) { ReplaceAgrees(m, dest, v); }
      else if dest in m.rtvs {
        AccountedLength(m.refs, m.rtvs[dest], false);
        if v.View? { AccountedLength(Accounted(m.refs, m.rtvs[dest], false), v, true); }
      } else if v.View? { AccountedLength(m.refs, v, true); }
    } else {
      SameRtvs(m, CopiedOne(m, dest, src, rtv));
    }
  }

  lemma SameRtvs(m: Maps, n: Maps)
    requires m.rtvs == n.rtvs && m.refs == n.refs
    ensures MapsOk(m) ==> MapsOk(n)
    ensures Agrees(m) ==> Agrees(n)
  {
  }

  /** Handle pairs copied one after another. */
  ghost function Folded(m: Maps, dests: seq<nat>, srcs: seq<nat>, rtv: bool): Maps
    requires MapsOk(m) && |dests| == |srcs|
    ensures MapsOk(Folded(m, dests, srcs, rtv))
    decreases |dests|
  {
    if |dests| == 0 then m
    else
      CopiedOneOk(m, dests[0], srcs[0], rtv);
      Folded(CopiedOne(m, dests[0], srcs[0], rtv), dests[1..], srcs[1..], rtv)
  }

  lemma {:induction false} FoldedConcat(m: Maps, a: seq<nat>, b: seq<nat>, c: seq<nat>, d: seq<nat>, rtv: bool)
    requires MapsOk(m) && |a| == |c| && |b| == |d|
    ensures Folded(m, a + b, c + d, rtv) == Folded(Folded(m, a, c, rtv), b, d, rtv)
    decreases |a|
  {
    hide CopiedOne;
    if |a| == 0 {
      assert a + b == b && c + d == d;
    } else {
      CopiedOneOk(m, a[0], c[0], rtv);
      FoldedConcat(CopiedOne(m, a[0], c[0], rtv), a[1..], b, c[1..], d, rtv);
      assert (a + b)[1..] == a[1..] + b && (c + d)[1..] == c[1..] + d;
    }
  }

  lemma {:induction false} FoldedAgrees(m: Maps, dests: seq<nat>, srcs: seq<nat>, rtv: bool)
    requires Agrees(m) && |dests| == |srcs|
    ensures Agrees(Folded(m, dests, srcs, rtv)) && |Folded(m, dests, srcs, rtv).refs| == |m.refs|
    decreases |dests|
  {
    hide CopiedOne;
    if |dests| > 0 {
      CopiedOneOk(m, dests[0], srcs[0], rtv);
      FoldedAgrees(CopiedOne(m, dests[0], srcs[0], rtv), dests[1..], srcs[1..], rtv);
    }
  }

  // ----- ranges -----

  /** Consecutive handles; addresses wrap at 64 bits. */
  function Range(base: nat, count: nat, stride: nat): (r: seq<nat>)
    ensures |r| == count && forall k | 0 <= k < count :: r[k] == (base + k * stride) % ADDRESSES
  {
    seq(count, k requires 0 <= k => (base + k * stride) % ADDRESSES)
  }

  lemma RangeSplit(base: nat, a: nat, b: nat, stride: nat)
    ensures Range(base, a + b, stride) == Range(base, a, stride) + Range(base + a * stride, b, stride)
  {
    var whole, joined := Range(base, a + b, stride), Range(base, a, stride) + Range(base + a * stride, b, stride);
    forall k | 0 <= k < |whole| ensures whole[k] == joined[k] {
      if k >= a { assert base + k * stride == base + a * stride + (k - a) * stride; }
    }
  }

  /** Range sizes; absent sizes mean one descriptor each. */
  datatype Sizes = Ones | Given(sizes: seq<nat>)

  predicate SizesOk(s: Sizes, n: nat) { s.Given? ==> |s.sizes| == n }

  function SizeOf(s: Sizes, i: nat): nat
    requires s.Given? ==> i < |s.sizes|
  {
    if s.Ones? then 1 else s.sizes[i]
  }

  /** The handles from range `i`, position `p`, to the end of the list. */
  function FlatFrom(bases: seq<nat>, sizes: Sizes, stride: nat, i: nat, p: nat): seq<nat>
    requires i <= |bases| && SizesOk(sizes, |bases|) && (i < |bases| ==> p <= SizeOf(sizes, i))
    decreases |bases| - i
  {
    if i == |bases| then []
    else Range(bases[i] + p * stride, SizeOf(sizes, i) - p, stride) + FlatFrom(bases, sizes, stride, i + 1, 0)
  }

  function Flat(bases: seq<nat>, sizes: Sizes, stride: nat): seq<nat>
    requires SizesOk(sizes, |bases|)
  {
    FlatFrom(bases, sizes, stride, 0, 0)
  }

  lemma FlatAdvance(bases: seq<nat>, sizes: Sizes, stride: nat, i: nat, p: nat, n: nat)
    requires i < |bases| && SizesOk(sizes, |bases|) && p + n <= SizeOf(sizes, i)
    ensures FlatFrom(bases, sizes, stride, i, p) == Range(bases[i] + p * stride, n, stride) + FlatFrom(bases, sizes, stride, i, p + n)
  {
    RangeSplit(bases[i] + p * stride, n, SizeOf(sizes, i) - p - n, stride);
    assert bases[i] + p * stride + n * stride == bases[i] + (p + n) * stride;
  }

  lemma FlatSkip(bases: seq<nat>, sizes: Sizes, stride: nat, i: nat)
    requires i < |bases| && SizesOk(sizes, |bases|)
    ensures FlatFrom(bases, sizes, stride, i, SizeOf(sizes, i)) == FlatFrom(bases, sizes, stride, i + 1, 0)
  {
  }

  lemma NextHandle(base: nat, i: nat, stride: nat)
    ensures ((base + i * stride) % ADDRESSES + stride) % ADDRESSES == (base + (i + 1) * stride) % ADDRESSES
  {
    ModStep(base + i * stride, stride);
    assert base + i * stride + stride == base + (i + 1) * stride;
  }

  lemma ModStep(x: nat, s: nat)
    ensures (x % ADDRESSES + s) % ADDRESSES == (x + s) % ADDRESSES
  {
    var q := x / ADDRESSES;
    assert x + s == q * ADDRESSES + (x % ADDRESSES + s);
    ModMultiple(q, x % ADDRESSES + s);
  }

  lemma {:induction false} ModMultiple(q: nat, y: nat)
    ensures (q * ADDRESSES + y) % ADDRESSES == y % ADDRESSES
    decreases q
  {
    if q > 0 {
      ModMultiple(q - 1, y);
      assert q * ADDRESSES + y == ((q - 1) * ADDRESSES + y) + ADDRESSES;
    }
  }

  // ----- the registry -----

  class Registry {
    var rtvs: map<nat, View>
    var dsvs: map<nat, nat>
    var refs: seq<Counters>
    var alive: seq<bool>
    const rtvStride: nat
    const dsvStride: nat

    ghost function Value(): Maps
      reads this
    {
      Maps(rtvs, dsvs, refs)
    }

    constructor (rtvStride: nat, dsvStride: nat)
      ensures Value() == Maps(map[], map[], []) && alive == [] && this.rtvStride == rtvStride && this.dsvStride == dsvStride
      ensures Agrees(Value())
    {
      rtvs, dsvs, refs, alive := map[], map[], [], [];
      this.rtvStride, this.dsvStride := rtvStride, dsvStride;
    }

    method AccountView(view: View, add: bool)
      requires view.View? ==> view.resource < |refs|
      modifies this`refs
      ensures refs == Accounted(old(refs), view, add)
    {
      if view.NoView? || view.mip != 0 || view.recovered {
        Uncounted(refs, view, add);
        return;
      }
      ghost var was := refs[view.resource];
      for i := 0 to 4
        invariant |refs| == |old(refs)| && forall r | 0 <= r < |refs| && r != view.resource :: refs[r] == old(refs)[r]
        invariant forall k | 0 <= k < i :: refs[view.resource][k] == Bump(was[k], view, view.resource, k, add)
        invariant forall k | i <= k < 4 :: refs[view.resource][k] == was[k]
      {
        if view.format == TYPED_FORMATS[i] {
          var count := refs[view.resource][i];
          if add { count := count + 1; } else if count > 0 { count := count - 1; }
          refs := refs[view.resource := refs[view.resource][i := count]];
        }
      }
      var c := refs[view.resource];
      assert c == [c[0], c[1], c[2], c[3]];
    }

    static lemma Uncounted(refs: seq<Counters>, v: View, add: bool)
      requires v.View? ==> v.resource < |refs| && (v.mip != 0 || v.recovered)
      ensures Accounted(refs, v, add) == refs
    {
      if v.View? {
        var c := refs[v.resource];
        assert c == [c[0], c[1], c[2], c[3]];
      }
    }

    method ReplaceView(handle: nat, supplied: View)
      requires MapsOk(Value()) && (supplied.View? ==> supplied.resource < |refs|)
      modifies this`rtvs, this`refs
      ensures Value() == Replaced(old(Value()), handle, supplied) && MapsOk(Value())
      ensures old(Agrees(Value())) ==> Agrees(Value())
    {
      hide Accounted, Agrees;
      ghost var m := Value();
      var known := handle in rtvs;
      if known {
        AccountView(rtvs[handle], false);
        AccountedLength(m.refs, m.rtvs[handle], false);
      }
      if supplied.View? && (known || |rtvs| < RTV_CAPACITY) {
        AccountedLength(refs, supplied, true);
        rtvs := rtvs[handle := supplied];
        AccountView(supplied, true);
      } else if known {
        rtvs := rtvs - {handle};
      }
      if Agrees(m) { ReplaceAgrees(m, handle, supplied); }
    }

    /** Uncounts every view, in any order, then forgets them all. */
    method ClearViews()
      requires Agrees(Value())
      modifies this`rtvs, this`refs
      ensures Value() == Cleared(old(Value())) && Agrees(Value())
    {
      hide Accounted, Agrees;
      ghost var m := Value();
      ghost var left := rtvs;
      var handles := rtvs.Keys;
      AgreesOk(m);
      while handles != {}
        invariant rtvs == m.rtvs && handles <= rtvs.Keys && left == rtvs - (rtvs.Keys - handles)
        invariant Agrees(Maps(left, m.dsvs, refs)) && |refs| == |m.refs|
        decreases handles
      {
        var handle :| handle in handles;
        DropAgrees(Maps(left, m.dsvs, refs), handle);
        AccountedLength(refs, rtvs[handle], false);
        AccountView(rtvs[handle], false);
        left := left - {handle};
        handles := handles - {handle};
      }
      rtvs := map[];
      assert left == map[];
      ClearAgrees(m);
      AgreementUnique(Value(), Cleared(m));
    }

    static lemma AgreesOk(m: Maps)
      requires Agrees(m)
      ensures MapsOk(m)
    {
    }

    method CopyOne(dest: nat, src: nat, rtv: bool)
      requires MapsOk(Value())
      modifies this`rtvs, this`refs, this`dsvs
      ensures Value() == CopiedOne(old(Value()), dest, src, rtv) && MapsOk(Value())
    {
      hide Replaced;
      if rtv {
        ReplaceView(dest, if src in rtvs then rtvs[src] else NoView);
      } else if src in dsvs && |dsvs| < DSV_CAPACITY {
        dsvs := dsvs[dest := dsvs[src]];
      } else {
        dsvs := dsvs - {dest};
      }
    }

    /** Copies consecutive descriptors one by one. */
    method CopyDescriptors(count: nat, dest: nat, src: nat, rtv: bool)
      requires Agrees(Value())
      modifies this`rtvs, this`refs, this`dsvs
      ensures Agrees(Value()) && |refs| == |old(refs)|
      ensures count > 65536 ==> Value() == Cleared(old(Value()))
      ensures count <= 65536 ==>
                var stride := if rtv then rtvStride else dsvStride;
                MapsOk(old(Value())) && Value() == Folded(old(Value()), Range(dest, count, stride), Range(src, count, stride), rtv)
    {
      hide Agrees, CopiedOne, Folded, MapsOk;
      ghost var m := Value();
      AgreesOk(m);
      if count > COPY_LIMIT {
        ClearViews();
        return;
      }
      var stride := if rtv then rtvStride else dsvStride;
      var d, s := dest % ADDRESSES, src % ADDRESSES;
      NothingFolded(m, dest, src, stride, rtv);
      for i := 0 to count
        invariant MapsOk(Value()) && Value() == Folded(m, Range(dest, i, stride), Range(src, i, stride), rtv)
        invariant d == (dest + i * stride) % ADDRESSES && s == (src + i * stride) % ADDRESSES
      {
        CopyOne(d, s, rtv);
        OneMoreFolded(m, dest, src, i, stride, rtv);
        NextHandle(dest, i, stride);
        NextHandle(src, i, stride);
        d := (d + stride) % ADDRESSES;
        s := (s + stride) % ADDRESSES;
      }
      FoldedAgrees(m, Range(dest, count, stride), Range(src, count, stride), rtv);
    }

    static lemma NothingFolded(m: Maps, dest: nat, src: nat, stride: nat, rtv: bool)
      requires MapsOk(m)
      ensures Folded(m, Range(dest, 0, stride), Range(src, 0, stride), rtv) == m
    {
    }

    static lemma OneMoreFolded(m: Maps, dest: nat, src: nat, i: nat, stride: nat, rtv: bool)
      requires MapsOk(m)
      ensures Folded(m, Range(dest, i + 1, stride), Range(src, i + 1, stride), rtv) ==
              CopiedOne(Folded(m, Range(dest, i, stride), Range(src, i, stride), rtv), (dest + i * stride) % ADDRESSES, (src + i * stride) % ADDRESSES, rtv)
    {
      hide CopiedOne;
      var f := Folded(m, Range(dest, i, stride), Range(src, i, stride), rtv);
      var d, s := (dest + i * stride) % ADDRESSES, (src + i * stride) % ADDRESSES;
      assert Range(dest, i + 1, stride) == Range(dest, i, stride) + [d];
      assert Range(src, i + 1, stride) == Range(src, i, stride) + [s];
      FoldedConcat(m, Range(dest, i, stride), [d], Range(src, i, stride), [s], rtv);
      FoldedSingle(f, d, s, rtv);
    }

    static lemma FoldedSingle(m: Maps, d: nat, s: nat, rtv: bool)
      requires MapsOk(m)
      ensures Folded(m, [d], [s], rtv) == CopiedOne(m, d, s, rtv)
    {
      hide CopiedOne;
      CopiedOneOk(m, d, s, rtv);
      assert [d][1..] == [] && [s][1..] == [];
    }

    // ----- merging two lists of ranges -----

    /** Both maps forgotten. */
    method ForgetAll()
      requires Agrees(Value())
      modifies this`rtvs, this`refs, this`dsvs
      ensures Value() == Emptied(old(Value())) && Agrees(Value())
      ensures forall m: Maps | |m.refs| == |old(refs)| :: Value() == Emptied(m)
    {
      hide Agrees;
      ClearViews();
      dsvs := map[];
      SameRtvs(Cleared(old(Value())), Value());
    }

    /** Copies between two lists of ranges of different lengths: the same as copying their flattened handles
        one by one, or everything tracked is forgotten when the lists are refused or too long. */
    method Descriptors(dest: seq<nat>, destSizes: Sizes, src: seq<nat>, srcSizes: Sizes, given: bool, rtv: bool) returns (copied: bool)
      requires Agrees(Value()) && SizesOk(destSizes, |dest|) && SizesOk(srcSizes, |src|)
      modifies this`rtvs, this`refs, this`dsvs
      ensures Agrees(Value())
      ensures var stride := if rtv then rtvStride else dsvStride;
              var d, s := Flat(dest, destSizes, stride), Flat(src, srcSizes, stride);
              var n := if |d| < |s| then |d| else |s|;
              && (copied <==> given && |dest| <= 4096 && |src| <= 4096 && n <= 65536)
              && (copied ==> MapsOk(old(Value())) && Value() == Folded(old(Value()), d[..n], s[..n], rtv))
              && (!copied ==> Value() == Emptied(old(Value())))
    {
      hide Agrees, Folded, Range, FlatFrom, Emptied, MapsOk, Remaining;
      ghost var m := Value();
      AgreesOk(m);
      if |dest| > RANGE_LIMIT || |src| > RANGE_LIMIT || !given {
        ForgetAll();
        return false;
      }
      var stride := if rtv then rtvStride else dsvStride;
      ghost var dAll, sAll := Flat(dest, destSizes, stride), Flat(src, srcSizes, stride);
      var di: nat, si: nat, dp: nat, sp: nat, total: nat := 0, 0, 0, 0, 0;
      FoldedNothing(m, rtv);
      RemainingAll(dest, destSizes, stride);
      RemainingAll(src, srcSizes, stride);
      while di < |dest| && si < |src|
        invariant di <= |dest| && si <= |src| && total <= COPY_LIMIT && Agrees(Value()) && |refs| == |m.refs|
        invariant Remaining(dAll, total, dest, destSizes, stride, di, dp) && Remaining(sAll, total, src, srcSizes, stride, si, sp)
        invariant total <= |dAll| && total <= |sAll|
        invariant (di < |dest| ==> dp <= SizeOf(destSizes, di)) && (si < |src| ==> sp <= SizeOf(srcSizes, si))
        invariant Value() == Folded(m, dAll[..total], sAll[..total], rtv)
        decreases |dest| - di, |src| - si, |dAll| - total
      {
        var dcount, scount := SizeOf(destSizes, di), SizeOf(srcSizes, si);
        if dp == dcount {
          RemainingSkip(dAll, total, dest, destSizes, stride, di);
          di, dp := di + 1, 0;
          continue;
        }
        if sp == scount {
          RemainingSkip(sAll, total, src, srcSizes, stride, si);
          si, sp := si + 1, 0;
          continue;
        }
        var n := if dcount - dp < scount - sp then dcount - dp else scount - sp;
        RemainingAdvance(dAll, total, dest, destSizes, stride, di, dp, n);
        RemainingAdvance(sAll, total, src, srcSizes, stride, si, sp, n);
        if n > COPY_LIMIT - total {
          ForgetAll();
          return false;
        }
        CopyChunk(n, dest[di] + dp * stride, src[si] + sp * stride, rtv, m, dAll[..total], sAll[..total]);
        dp, sp, total := dp + n, sp + n, total + n;
      }
      if di == |dest| { RemainingEnd(dAll, total, dest, destSizes, stride, dp); } else { RemainingEnd(sAll, total, src, srcSizes, stride, sp); }
      copied := true;
    }

    /** From handle `total` on, the flattened list is what is left from range i, position p. */
    static ghost predicate Remaining(all: seq<nat>, total: nat, bases: seq<nat>, sizes: Sizes, stride: nat, i: nat, p: nat) {
      && SizesOk(sizes, |bases|) && i <= |bases| && (i < |bases| ==> p <= SizeOf(sizes, i))
      && total <= |all| && all[total..] == FlatFrom(bases, sizes, stride, i, p)
    }

    static lemma RemainingAll(bases: seq<nat>, sizes: Sizes, stride: nat)
      requires SizesOk(sizes, |bases|)
      ensures Remaining(Flat(bases, sizes, stride), 0, bases, sizes, stride, 0, 0)
    {
      hide FlatFrom;
    }

    static lemma RemainingEnd(all: seq<nat>, total: nat, bases: seq<nat>, sizes: Sizes, stride: nat, p: nat)
      requires Remaining(all, total, bases, sizes, stride, |bases|, p)
      ensures total == |all|
    {
    }

    static lemma RemainingSkip(all: seq<nat>, total: nat, bases: seq<nat>, sizes: Sizes, stride: nat, i: nat)
      requires i < |bases| && SizesOk(sizes, |bases|) && Remaining(all, total, bases, sizes, stride, i, SizeOf(sizes, i))
      ensures Remaining(all, total, bases, sizes, stride, i + 1, 0)
    {
      hide FlatFrom;
      FlatSkip(bases, sizes, stride, i);
    }

    static lemma RemainingAdvance(all: seq<nat>, total: nat, bases: seq<nat>, sizes: Sizes, stride: nat, i: nat, p: nat, n: nat)
      requires i < |bases| && SizesOk(sizes, |bases|) && p + n <= SizeOf(sizes, i) && Remaining(all, total, bases, sizes, stride, i, p)
      ensures total + n <= |all| && all[..total + n] == all[..total] + Range(bases[i] + p * stride, n, stride)
      ensures Remaining(all, total + n, bases, sizes, stride, i, p + n)
    {
      hide FlatFrom, Range;
      FlatAdvance(bases, sizes, stride, i, p, n);
      ChunkOf(all, total, Range(bases[i] + p * stride, n, stride), FlatFrom(bases, sizes, stride, i, p + n));
    }

    /** Copies one more stretch after the handles already copied. */
    method CopyChunk(n: nat, dest: nat, src: nat, rtv: bool, ghost m: Maps, ghost dests: seq<nat>, ghost srcs: seq<nat>)
      requires Agrees(Value()) && n <= COPY_LIMIT && MapsOk(m) && |dests| == |srcs| && Value() == Folded(m, dests, srcs, rtv)
      modifies this`rtvs, this`refs, this`dsvs
      ensures Agrees(Value()) && |refs| == |old(refs)|
      ensures var stride := if rtv then rtvStride else dsvStride;
              Value() == Folded(m, dests + Range(dest, n, stride), srcs + Range(src, n, stride), rtv)
    {
      hide Agrees, Folded;
      var stride := if rtv then rtvStride else dsvStride;
      FoldedConcat(m, dests, Range(dest, n, stride), srcs, Range(src, n, stride), rtv);
      CopyDescriptors(n, dest, src, rtv);
    }

    static lemma FoldedNothing(m: Maps, rtv: bool)
      requires MapsOk(m)
      ensures Folded(m, [], [], rtv) == m
    {
    }

    /** The next chunk of the flattened handles. */
    static lemma ChunkOf(all: seq<nat>, total: nat, chunk: seq<nat>, rest: seq<nat>)
      requires total <= |all| && all[total..] == chunk + rest
      ensures total + |chunk| <= |all| && all[..total + |chunk|] == all[..total] + chunk && all[total + |chunk|..] == rest
    {
      assert all == all[..total] + (chunk + rest);
    }

    // ----- retirement -----

    /** Views whose resource is gone are uncounted and erased. */
    method EraseDead()
      requires Agrees(Value()) && |alive| == |refs|
      modifies this`rtvs, this`refs
      ensures Agrees(Value()) && |refs| == |old(refs)| && rtvs == map h | h in old(rtvs) && alive[old(rtvs)[h].resource] :: old(rtvs)[h]
    {
      hide Accounted, TypedHandles;
      ghost var m := Value();
      var handles := rtvs.Keys;
      while handles != {}
        invariant handles <= m.rtvs.Keys && Agrees(Value()) && |refs| == |m.refs|
        invariant forall h :: h in rtvs <==> h in m.rtvs && (h in handles || alive[m.rtvs[h].resource])
        invariant forall h | h in rtvs :: rtvs[h] == m.rtvs[h]
        decreases handles
      {
        var handle :| handle in handles;
        if !alive[rtvs[handle].resource] {
          DropAgrees(Value(), handle);
          AccountedLength(refs, rtvs[handle], false);
          AccountView(rtvs[handle], false);
          rtvs := rtvs - {handle};
        }
        handles := handles - {handle};
      }
    }

    /** Recovered views are erased; they were never counted, so the counters stay. */
    method EraseRecovered()
      requires Agrees(Value())
      modifies this`rtvs
      ensures Agrees(Value()) && rtvs == map h | h in old(rtvs) && !old(rtvs)[h].recovered :: old(rtvs)[h]
    {
      ghost var m := Value();
      AgreesOk(m);
      var gone := set h | h in rtvs && rtvs[h].recovered;
      rtvs := rtvs - gone;
      RecoveredUncounted(m, gone);
    }

    // ----- lookup -----

    /** The view to copy with: the resource's only typed format, or else any recovered base-mip view of a live resource
        whose own format has an output encoding. One view is found or the copy is refused. */
    method LookUp(item: nat, desc: nat) returns (count: nat, view: View)
      requires Agrees(Value()) && item < |refs| == |alive|
      ensures (exists h :: h in rtvs && TypedView(rtvs[h], item)) ==>
                (count == 1 <==> forall h, k | h in rtvs && k in rtvs && TypedView(rtvs[h], item) && TypedView(rtvs[k], item) ::
                                   rtvs[h].format == rtvs[k].format) &&
                (count == 1 ==> exists h :: h in rtvs && TypedView(rtvs[h], item) && view == rtvs[h]) && count != 0
      ensures (forall h | h in rtvs :: !TypedView(rtvs[h], item)) ==>
                (count == 1 <==> exists h :: h in rtvs && Fallback(rtvs[h], item, desc, alive[item])) && count <= 1 &&
                (count == 1 ==> exists h :: h in rtvs && Fallback(rtvs[h], item, desc, alive[item]) && view == rtvs[h])
    {
      hide Agrees, TypedView;
      var format;
      count, format := CountTyped(item);
      view := View(item, format, 0, false);
      if count == 0 {
        if h :| h in rtvs && Fallback(rtvs[h], item, desc, alive[item]) {
          view, count := rtvs[h], 1;
        }
      } else if count == 1 {
        var h :| h in rtvs && TypedView(rtvs[h], item);
        TypedIs(rtvs[h], item);
      }
    }

    static lemma TypedIs(v: View, item: nat)
      requires TypedView(v, item)
      ensures v == View(item, v.format, 0, false)
    {
    }

    /** How many of the four formats a resource's typed base-mip views have, and one of them. */
    method CountTyped(item: nat) returns (count: nat, format: nat)
      requires Agrees(Value()) && item < |refs|
      ensures count == 0 <==> forall h | h in rtvs :: !TypedView(rtvs[h], item)
      ensures count == 1 ==> (exists h :: h in rtvs && TypedView(rtvs[h], item)) &&
                             forall h | h in rtvs && TypedView(rtvs[h], item) :: rtvs[h].format == format
      ensures count > 1 ==> exists h, k :: h in rtvs && k in rtvs && TypedView(rtvs[h], item) && TypedView(rtvs[k], item) && rtvs[h].format != rtvs[k].format
    {
      hide Agrees;
      count, format := 0, 0;
      ghost var other := 0;
      for i := 0 to 4
        invariant count == 0 ==> forall h, k | h in rtvs && 0 <= k < i :: !Typed(rtvs[h], item, k)
        invariant count >= 1 ==> exists h :: h in rtvs && TypedView(rtvs[h], item) && rtvs[h].format == format
        invariant count == 1 ==> forall h, k | h in rtvs && 0 <= k < i && Typed(rtvs[h], item, k) :: rtvs[h].format == format
        invariant count >= 1 ==> exists k :: 0 <= k < i && TYPED_FORMATS[k] == format
        invariant count > 1 ==> exists h, k :: h in rtvs && k in rtvs && TypedView(rtvs[h], item) && TypedView(rtvs[k], item) && rtvs[h].format != rtvs[k].format
      {
        CounterMeans(Value(), item, i);
        if refs[item][i] != 0 {
          format := TYPED_FORMATS[i];
          count := count + 1;
        }
      }
    }

    static lemma CounterMeans(m: Maps, item: nat, i: nat)
      requires Agrees(m) && item < |m.refs| && i < 4
      ensures m.refs[item][i] != 0 <==> exists h :: h in m.rtvs && Typed(m.rtvs[h], item, i)
    {
      var t := TypedHandles(m.rtvs, item, i);
      if h :| h in m.rtvs && Typed(m.rtvs[h], item, i) { assert h in t; }
      if t != {} {
        var h :| h in t;
      }
    }
  }

  /** A typed base-mip view of this resource. */
  predicate TypedView(v: View, item: nat) {
    exists i | 0 <= i < 4 :: Typed(v, item, i)
  }

  /** The bridge's own encoding of a resource format: typeless formats become plain ones. */
  function OutputFormat(desc: nat): nat {
    if desc == 27 then 28 else if desc == 90 then 87 else if desc in TYPED_FORMATS then desc else 0
  }

  /** A recovered base-mip view of this live resource with an output encoding. */
  predicate Fallback(v: View, item: nat, desc: nat, live: bool) {
    v.View? && v.resource == item && v.recovered && v.mip == 0 && live && OutputFormat(desc) != 0
  }

  function Emptied(m: Maps): Maps { Cleared(m).(dsvs := map[]) }
}
