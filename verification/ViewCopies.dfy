/** What copying descriptors means for the two maps, handle by handle, whatever the function that does it. */
module ViewCopies {
  import opened ViewRegistry

  /** The two maps agree on every handle but one. */
  ghost predicate SameBut(m: Maps, n: Maps, dest: nat) {
    && (forall h | h != dest :: (h in m.rtvs <==> h in n.rtvs) && (h in m.dsvs <==> h in n.dsvs))
    && (forall h | h != dest && h in m.rtvs && h in n.rtvs :: n.rtvs[h] == m.rtvs[h])
    && (forall h | h != dest && h in m.dsvs && h in n.dsvs :: n.dsvs[h] == m.dsvs[h])
  }

  /** After copying src to dest, dest is tracked with the source's view exactly when the source is tracked and dest was
      or there is room for it; no other handle changes, and no depth format. */
  lemma RenderTargetCopied(m: Maps, dest: nat, src: nat)
    requires MapsOk(m)
    ensures var n := CopiedOne(m, dest, src, true);
            && SameBut(m, n, dest) && n.dsvs == m.dsvs
            && (dest in n.rtvs <==> src in m.rtvs && (dest in m.rtvs || |m.rtvs| < 65536))
            && (dest in n.rtvs ==> n.rtvs[dest] == m.rtvs[src])
  {
    hide Accounted;
  }

  /** The same for depth formats, which a full map drops even for a handle it already tracks. */
  lemma DepthCopied(m: Maps, dest: nat, src: nat)
    requires MapsOk(m)
    ensures var n := CopiedOne(m, dest, src, false);
            && SameBut(m, n, dest) && n.rtvs == m.rtvs && n.refs == m.refs
            && (dest in n.dsvs <==> src in m.dsvs && |m.dsvs| < 16384)
            && (dest in n.dsvs ==> n.dsvs[dest] == m.dsvs[src])
  {
  }

  /** Putting a view at a handle tracks exactly it there, unless the handle is new and the map full; a view without a
      resource untracks it. */
  lemma ReplacedExactly(m: Maps, handle: nat, v: View)
    requires MapsOk(m) && (v.View? ==> v.resource < |m.refs|)
    ensures var n := Replaced(m, handle, v);
            && SameBut(m, n, handle) && n.dsvs == m.dsvs
            && (handle in n.rtvs <==> v.View? && (handle in m.rtvs || |m.rtvs| < 65536))
            && (handle in n.rtvs ==> n.rtvs[handle] == v)
  {
    hide Accounted;
  }

  /** What is counted: base-mip views that were not recovered, in four formats. */
  lemma CountedExactly(v: View, r: nat, i: nat)
    requires i < 4
    ensures Typed(v, r, i) <==> v.View? && v.resource == r && v.mip == 0 && !v.recovered && v.format == [28, 29, 87, 91][i]
  {
  }

  /** Forgetting leaves nothing tracked and nothing counted. */
  lemma EmptiedMeans(m: Maps)
    ensures Emptied(m).rtvs == map[] && Emptied(m).dsvs == map[] && |Emptied(m).refs| == |m.refs|
    ensures Cleared(m).rtvs == map[] && Cleared(m).dsvs == m.dsvs && |Cleared(m).refs| == |m.refs|
    ensures forall r, i | 0 <= r < |m.refs| && 0 <= i < 4 :: Emptied(m).refs[r][i] == 0 && Cleared(m).refs[r][i] == 0
  {
  }

  // ----- whole lists -----

  predicate Tracks(m: Maps, handle: nat, rtv: bool) { if rtv then handle in m.rtvs else handle in m.dsvs }

  /** Two handles, in two maps, stand for the same view. */
  predicate SameView(m: Maps, h: nat, n: Maps, k: nat, rtv: bool) {
    && (Tracks(m, h, rtv) <==> Tracks(n, k, rtv))
    && (Tracks(m, h, rtv) ==> if rtv then m.rtvs[h] == n.rtvs[k] else m.dsvs[h] == n.dsvs[k])
  }

  /** A handle stands for the view another one had, or for none. */
  predicate SameOrNone(m: Maps, h: nat, n: Maps, k: nat, rtv: bool) {
    Tracks(m, h, rtv) ==> Tracks(n, k, rtv) && if rtv then m.rtvs[h] == n.rtvs[k] else m.dsvs[h] == n.dsvs[k]
  }

  predicate Room(m: Maps, more: nat, rtv: bool) {
    if rtv then |m.rtvs| + more <= 65536 else |m.dsvs| + more <= 16384
  }

  lemma OneCopied(m: Maps, dest: nat, src: nat, rtv: bool)
    requires MapsOk(m)
    ensures var n := CopiedOne(m, dest, src, rtv);
            && SameOrNone(n, dest, m, src, rtv) && (Room(m, 1, rtv) ==> SameView(n, dest, m, src, rtv))
            && (forall h | h != dest :: SameView(n, h, m, h, rtv)) && OtherKind(m, rtv) == OtherKind(n, rtv)
  {
    hide CopiedOne;
    if rtv { RenderTargetCopied(m, dest, src); } else { DepthCopied(m, dest, src); }
    var n := CopiedOne(m, dest, src, rtv);
    forall h | h != dest ensures SameView(n, h, m, h, rtv) {
    }
  }

  /** The views of the other kind. */
  function OtherKind(m: Maps, rtv: bool): Maps { if rtv then m.(rtvs := map[], refs := []) else m.(dsvs := map[]) }

  lemma GrowsByOne(m: Maps, dest: nat, src: nat, rtv: bool)
    requires MapsOk(m)
    ensures var n := CopiedOne(m, dest, src, rtv); if rtv then |n.rtvs| <= |m.rtvs| + 1 else |n.dsvs| <= |m.dsvs| + 1
  {
    hide Accounted;
    var n := CopiedOne(m, dest, src, rtv);
    if rtv {
      assert n.rtvs.Keys <= m.rtvs.Keys + {dest};
      Smaller(n.rtvs.Keys, m.rtvs.Keys + {dest});
      assert |n.rtvs| == |n.rtvs.Keys| && |m.rtvs| == |m.rtvs.Keys|;
    } else {
      assert n.dsvs.Keys <= m.dsvs.Keys + {dest};
      Smaller(n.dsvs.Keys, m.dsvs.Keys + {dest});
      assert |n.dsvs| == |n.dsvs.Keys| && |m.dsvs| == |m.dsvs.Keys|;
    }
  }

  lemma {:induction false} Smaller(a: set<nat>, b: set<nat>)
    requires a <= b
    ensures |a| <= |b|
  {
    if a != {} {
      var x :| x in a;
      Smaller(a - {x}, b - {x});
    }
  }

  /** Step by step, for any lists: the k-th destination stands for what its source was just before that pair, or for
      nothing if there was no room; every other handle, and every view of the other kind, keeps its own. */
  lemma CopiedStepwise(m: Maps, dests: seq<nat>, srcs: seq<nat>, rtv: bool, k: nat)
    requires MapsOk(m) && |dests| == |srcs| && k < |dests|
    ensures var before, after := Folded(m, dests[..k], srcs[..k], rtv), Folded(m, dests[..k + 1], srcs[..k + 1], rtv);
            && SameOrNone(after, dests[k], before, srcs[k], rtv)
            && (Room(before, 1, rtv) ==> SameView(after, dests[k], before, srcs[k], rtv))
            && (forall h | h != dests[k] :: SameView(after, h, before, h, rtv)) && OtherKind(after, rtv) == OtherKind(before, rtv)
  {
    hide Folded, CopiedOne, Room, SameView, SameOrNone;
    var before := Folded(m, dests[..k], srcs[..k], rtv);
    FoldedConcat(m, dests[..k], [dests[k]], srcs[..k], [srcs[k]], rtv);
    assert dests[..k + 1] == dests[..k] + [dests[k]] && srcs[..k + 1] == srcs[..k] + [srcs[k]];
    OneFolded(before, dests[k], srcs[k], rtv);
    OneCopied(before, dests[k], srcs[k], rtv);
  }

  lemma OneFolded(m: Maps, dest: nat, src: nat, rtv: bool)
    requires MapsOk(m)
    ensures Folded(m, [dest], [src], rtv) == CopiedOne(m, dest, src, rtv)
  {
    hide CopiedOne;
    CopiedOneOk(m, dest, src, rtv);
    assert [dest][1..] == [] && [src][1..] == [];
  }

  predicate Distinct(dests: seq<nat>) {
    forall j, k | 0 <= j < k < |dests| :: dests[j] != dests[k]
  }

  predicate Disjoint(dests: seq<nat>, srcs: seq<nat>) {
    forall j, k | 0 <= j < |dests| && 0 <= k < |srcs| :: dests[j] != srcs[k]
  }

  /** Lists that do not overlap: each destination ends as its source was, provided there is room for all of them;
      whatever the room, it ends as its source was or untracked. No other handle changes. */
  lemma {:induction false} CopiedApart(m: Maps, dests: seq<nat>, srcs: seq<nat>, rtv: bool)
    requires MapsOk(m) && |dests| == |srcs| && Distinct(dests) && Disjoint(dests, srcs)
    ensures var n := Folded(m, dests, srcs, rtv);
            && (forall k | 0 <= k < |dests| :: SameOrNone(n, dests[k], m, srcs[k], rtv))
            && (Room(m, |dests|, rtv) ==> forall k | 0 <= k < |dests| :: SameView(n, dests[k], m, srcs[k], rtv))
            && (forall h | h !in dests :: SameView(n, h, m, h, rtv))
            && OtherKind(n, rtv) == OtherKind(m, rtv)
    decreases |dests|
  {
    hide CopiedOne, Room;
    if |dests| > 0 {
      var d, s, ds, ss := dests[0], srcs[0], dests[1..], srcs[1..];
      OneCopied(m, d, s, rtv);
      CopiedOneOk(m, d, s, rtv);
      var one := CopiedOne(m, d, s, rtv);
      assert Distinct(ds) && Disjoint(ds, ss) by { TailsApart(dests, srcs); }
      CopiedApart(one, ds, ss, rtv);
      var n := Folded(m, dests, srcs, rtv);
      assert n == Folded(one, ds, ss, rtv);
      assert d !in ds;
      GrowsByOne(m, d, s, rtv);
      RoomLeft(m, one, |ds|, rtv);
      forall k | 0 <= k < |dests|
        ensures SameOrNone(n, dests[k], m, srcs[k], rtv) && (Room(m, |dests|, rtv) ==> SameView(n, dests[k], m, srcs[k], rtv))
      {
        if k > 0 {
          assert dests[k] == ds[k - 1] && srcs[k] == ss[k - 1] && srcs[k] != d;
          assert SameView(one, srcs[k], m, srcs[k], rtv);
        } else {
          assert SameView(n, d, one, d, rtv);
        }
      }
      forall h | h !in dests ensures SameView(n, h, m, h, rtv) {
        assert h !in ds && h != d;
        assert SameView(one, h, m, h, rtv);
      }
    }
  }

  lemma RoomLeft(m: Maps, n: Maps, more: nat, rtv: bool)
    requires if rtv then |n.rtvs| <= |m.rtvs| + 1 else |n.dsvs| <= |m.dsvs| + 1
    ensures Room(m, more + 1, rtv) ==> Room(m, 1, rtv) && Room(n, more, rtv)
  {
  }

  lemma TailsApart(dests: seq<nat>, srcs: seq<nat>)
    requires |dests| == |srcs| > 0 && Distinct(dests) && Disjoint(dests, srcs)
    ensures Distinct(dests[1..]) && Disjoint(dests[1..], srcs[1..])
  {
    var ds, ss := dests[1..], srcs[1..];
    forall j, k | 0 <= j < k < |ds| ensures ds[j] != ds[k] { assert ds[j] == dests[j + 1] && ds[k] == dests[k + 1]; }
    forall j, k | 0 <= j < |ds| && 0 <= k < |ss| ensures ds[j] != ss[k] { assert ds[j] == dests[j + 1] && ss[k] == srcs[k + 1]; }
  }

  // ----- flattened lists of ranges -----

  /** How many handles the first i ranges hold. */
  function Before(sizes: Sizes, i: nat): nat
    requires sizes.Given? ==> i <= |sizes.sizes|
  {
    if i == 0 then 0 else Before(sizes, i - 1) + SizeOf(sizes, i - 1)
  }

  /** A flattened list holds every handle of every range, in order: position p of range i, a stride apart, with
      addresses that wrap at 64 bits; and nothing else. */
  lemma FlatAt(bases: seq<nat>, sizes: Sizes, stride: nat, i: nat, p: nat)
    requires SizesOk(sizes, |bases|) && i < |bases| && p < SizeOf(sizes, i)
    ensures var flat := Flat(bases, sizes, stride);
            |flat| == Before(sizes, |bases|) && Before(sizes, i) + p < |flat| &&
            flat[Before(sizes, i) + p] == (bases[i] + p * stride) % 0x1_0000_0000_0000_0000
  {
    hide Range, FlatFrom, Before;
    FlatSuffix(bases, sizes, stride, i);
    FlatLength(bases, sizes, stride, i);
    FlatLength(bases, sizes, stride, 0);
    var rest := FlatFrom(bases, sizes, stride, i, 0);
    RangeAt(bases[i], SizeOf(sizes, i), stride, p);
    RestAt(bases, sizes, stride, i, p);
    BeforeGrows(sizes, i, |bases|);
    StartsAtNone(sizes);
    assert rest[p] == Flat(bases, sizes, stride)[Before(sizes, i) + p];
  }

  lemma StartsAtNone(sizes: Sizes)
    ensures Before(sizes, 0) == 0
  {
  }

  lemma RestAt(bases: seq<nat>, sizes: Sizes, stride: nat, i: nat, p: nat)
    requires SizesOk(sizes, |bases|) && i < |bases| && p < SizeOf(sizes, i)
    ensures var rest := FlatFrom(bases, sizes, stride, i, 0);
            p < |rest| && rest[p] == Range(bases[i] + 0 * stride, SizeOf(sizes, i) - 0, stride)[p]
  {
    hide Range;
  }

  lemma RangeAt(base: nat, count: nat, stride: nat, p: nat)
    requires p < count
    ensures Range(base + 0 * stride, count - 0, stride)[p] == (base + p * stride) % 0x1_0000_0000_0000_0000
  {
  }

  lemma {:induction false} BeforeGrows(sizes: Sizes, i: nat, n: nat)
    requires i <= n && (sizes.Given? ==> n <= |sizes.sizes|)
    ensures Before(sizes, i) <= Before(sizes, n)
    decreases n
  {
    if i < n { BeforeGrows(sizes, i, n - 1); }
  }

  lemma {:induction false} FlatLength(bases: seq<nat>, sizes: Sizes, stride: nat, i: nat)
    requires SizesOk(sizes, |bases|) && i <= |bases|
    ensures |FlatFrom(bases, sizes, stride, i, 0)| == Before(sizes, |bases|) - Before(sizes, i)
    decreases |bases| - i
  {
    if i < |bases| { FlatLength(bases, sizes, stride, i + 1); }
  }

  lemma {:induction false} FlatSuffix(bases: seq<nat>, sizes: Sizes, stride: nat, i: nat)
    requires SizesOk(sizes, |bases|) && i <= |bases|
    ensures var flat := Flat(bases, sizes, stride);
            Before(sizes, i) <= |flat| && flat[Before(sizes, i)..] == FlatFrom(bases, sizes, stride, i, 0)
    decreases i
  {
    if i > 0 {
      FlatSuffix(bases, sizes, stride, i - 1);
      var flat, b := Flat(bases, sizes, stride), Before(sizes, i - 1);
      assert flat[b..] == Range(bases[i - 1] + 0 * stride, SizeOf(sizes, i - 1) - 0, stride) + FlatFrom(bases, sizes, stride, i, 0);
      assert flat[b..][SizeOf(sizes, i - 1)..] == flat[Before(sizes, i)..];
    }
  }
}
