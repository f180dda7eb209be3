/** What the independent reread may cost: every range is charged for the windows it may take, and the caps on a
    model bound the whole. Costs are added up in the order the reread incurs them. */
module RereadBudget {
  import opened ContractModel
  import opened LoadedImage
  import opened ContractDomains

  const WINDOW: nat := 32768
  const CALL_LIMIT: nat := 131072
  const BYTE_LIMIT: nat := 512 * 1024 * 1024

  /** What a reader has charged so far: queries, copies and bytes, each against its limit. */
  datatype Spent = Spent(queries: nat, copies: nat, bytes: nat)

  /** Ranges to read, calls for them, and their bytes. */
  datatype Cost = Cost(ranges: nat, calls: nat, bytes: nat)

  const FREE: Cost := Cost(0, 0, 0)

  function Plus(a: Cost, b: Cost): Cost {
    Cost(a.ranges + b.ranges, a.calls + b.calls, a.bytes + b.bytes)
  }

  predicate AtMost(a: Cost, b: Cost) {
    a.ranges <= b.ranges && a.calls <= b.calls && a.bytes <= b.bytes
  }

  predicate Charged(before: Spent, after: Spent, cost: Cost) {
    && after.queries <= before.queries + cost.calls && after.copies <= before.copies + cost.calls
    && after.bytes <= before.bytes + cost.bytes
  }

  predicate Affordable(spent: Spent, cost: Cost) {
    spent.queries + cost.calls <= CALL_LIMIT && spent.copies + cost.calls <= CALL_LIMIT && spent.bytes + cost.bytes <= BYTE_LIMIT
  }

  /** One range, through windows of at least `grain` bytes: two calls may find less, at the end of the range and
      at the end of the image. */
  function RangeCost(grain: nat, size: nat): Cost
    requires grain > 0
  {
    Cost(1, size / grain + 2, size)
  }

  function ShapesCost(grain: nat, codes: seq<Template>): Cost
    requires grain > 0
  {
    if codes == [] then FREE else
      var n := |codes| - 1;
      Plus(ShapesCost(grain, codes[..n]), RangeCost(grain, |codes[n].bytes|))
  }

  /** The declared shape, then every variant of its symbol. */
  function ShapeCost(grain: nat, code: Template, variants: seq<Template>): Cost
    requires grain > 0
  {
    Plus(RangeCost(grain, |code.bytes|), ShapesCost(grain, VariantsOf(variants, code.symbol)))
  }

  function TriedCost(grain: nat, codes: seq<Template>, variants: seq<Template>): Cost
    requires grain > 0
  {
    if codes == [] then FREE else
      var n := |codes| - 1;
      Plus(TriedCost(grain, codes[..n], variants), ShapeCost(grain, codes[n], variants))
  }

  function ConstantsCost(grain: nat, constants: seq<Constant>): Cost
    requires grain > 0
  {
    if constants == [] then FREE else
      var n := |constants| - 1;
      Plus(ConstantsCost(grain, constants[..n]), RangeCost(grain, |constants[n].bytes|))
  }

  function PointersCost(grain: nat, n: nat): Cost
    requires grain > 0
  {
    if n == 0 then FREE else Plus(PointersCost(grain, n - 1), RangeCost(grain, 8))
  }

  function RereadCost(grain: nat, model: Model): Cost
    requires grain > 0
  {
    Plus(Plus(TriedCost(grain, model.code, model.variants), ConstantsCost(grain, model.constants)),
         PointersCost(grain, |model.pointers|))
  }

  // ----- a stretch of the reread costs no more than the whole -----

  lemma {:induction false} TriedPrefix(grain: nat, codes: seq<Template>, variants: seq<Template>, k: nat)
    requires grain > 0 && k < |codes|
    ensures AtMost(Plus(TriedCost(grain, codes[..k], variants), ShapeCost(grain, codes[k], variants)), TriedCost(grain, codes, variants))
    decreases |codes|
  {
    hide ShapeCost;
    var n := |codes| - 1;
    if k < n {
      TriedPrefix(grain, codes[..n], variants, k);
      assert codes[..n][..k] == codes[..k];
    }
  }

  lemma {:induction false} ConstantsPrefix(grain: nat, constants: seq<Constant>, k: nat)
    requires grain > 0 && k < |constants|
    ensures AtMost(Plus(ConstantsCost(grain, constants[..k]), RangeCost(grain, |constants[k].bytes|)), ConstantsCost(grain, constants))
    decreases |constants|
  {
    hide RangeCost;
    var n := |constants| - 1;
    if k < n {
      ConstantsPrefix(grain, constants[..n], k);
      assert constants[..n][..k] == constants[..k];
    }
  }

  lemma {:induction false} PointersPrefix(grain: nat, k: nat, n: nat)
    requires grain > 0 && k < n
    ensures AtMost(Plus(PointersCost(grain, k), RangeCost(grain, 8)), PointersCost(grain, n))
    decreases n
  {
    hide RangeCost;
    if k < n - 1 { PointersPrefix(grain, k, n - 1); }
  }

  /** Trying variant v as well. */
  lemma VariantsPrefix(grain: nat, variants: seq<Template>, symbol: nat, v: nat)
    requires grain > 0 && v < |variants|
    ensures var before, after := ShapesCost(grain, VariantsOf(variants[..v], symbol)), ShapesCost(grain, VariantsOf(variants[..v + 1], symbol));
            && after == (if variants[v].symbol == symbol then Plus(before, RangeCost(grain, |variants[v].bytes|)) else before)
            && AtMost(after, ShapesCost(grain, VariantsOf(variants, symbol)))
  {
    hide RangeCost;
    assert variants[..v + 1][..v] == variants[..v];
    var chosen := VariantsOf(variants[..v], symbol);
    if variants[v].symbol == symbol {
      assert (chosen + [variants[v]])[..|chosen|] == chosen;
    } else {
      assert chosen + [] == chosen;
    }
    VariantsGrow(grain, variants, symbol, v + 1);
  }

  lemma {:induction false} VariantsGrow(grain: nat, variants: seq<Template>, symbol: nat, v: nat)
    requires grain > 0 && v <= |variants|
    ensures AtMost(ShapesCost(grain, VariantsOf(variants[..v], symbol)), ShapesCost(grain, VariantsOf(variants, symbol)))
    decreases |variants|
  {
    hide RangeCost;
    if v == |variants| {
      assert variants[..v] == variants;
    } else {
      var n := |variants| - 1;
      VariantsGrow(grain, variants[..n], symbol, v);
      assert variants[..n][..v] == variants[..v];
      var chosen := VariantsOf(variants[..n], symbol);
      assert (chosen + [variants[n]])[..|chosen|] == chosen && chosen + [] == chosen;
    }
  }

  // ----- the whole, from a model's caps -----

  /** Windows of at least `grain` bytes. */
  predicate Fair(grain: nat, c: Cost) {
    c.calls * grain <= c.bytes + 2 * c.ranges * grain
  }

  lemma FairRange(grain: nat, size: nat)
    requires grain > 0
    ensures Fair(grain, RangeCost(grain, size))
  {
    assert (size / grain) * grain <= size;
    assert (size / grain + 2) * grain == (size / grain) * grain + 2 * grain;
  }

  lemma FairPlus(grain: nat, a: Cost, b: Cost)
    requires Fair(grain, a) && Fair(grain, b)
    ensures Fair(grain, Plus(a, b))
  {
    assert (a.calls + b.calls) * grain == a.calls * grain + b.calls * grain;
    assert 2 * (a.ranges + b.ranges) * grain == 2 * a.ranges * grain + 2 * b.ranges * grain;
  }

  lemma FairBound(grain: nat, c: Cost, ranges: nat, bytes: nat)
    requires grain > 0 && Fair(grain, c) && c.ranges <= ranges && c.bytes <= bytes
    ensures c.calls <= bytes / grain + 2 * ranges
  {
    var q := bytes / grain;
    assert bytes < (q + 1) * grain;
    assert (q + 1 + 2 * c.ranges) * grain == (q + 1) * grain + 2 * c.ranges * grain;
    if c.calls > q + 2 * ranges { Scales(q + 1 + 2 * c.ranges, c.calls, grain); }
  }

  lemma Scales(a: nat, b: nat, c: nat)
    requires a <= b
    ensures a * c <= b * c
  {
  }

  lemma {:induction false} ShapesTotal(grain: nat, codes: seq<Template>)
    requires grain > 0
    ensures var c := ShapesCost(grain, codes); c.ranges == |codes| && c.bytes == TemplateBytes(codes) && Fair(grain, c)
  {
    if codes != [] {
      var n := |codes| - 1;
      ShapesTotal(grain, codes[..n]);
      FairRange(grain, |codes[n].bytes|);
      FairPlus(grain, ShapesCost(grain, codes[..n]), RangeCost(grain, |codes[n].bytes|));
    }
  }

  lemma {:induction false} ConstantsTotal(grain: nat, constants: seq<Constant>)
    requires grain > 0
    ensures var c := ConstantsCost(grain, constants); c.ranges == |constants| && c.bytes == ConstantBytes(constants) && Fair(grain, c)
  {
    if constants != [] {
      var n := |constants| - 1;
      ConstantsTotal(grain, constants[..n]);
      FairRange(grain, |constants[n].bytes|);
      FairPlus(grain, ConstantsCost(grain, constants[..n]), RangeCost(grain, |constants[n].bytes|));
    }
  }

  lemma {:induction false} PointersTotal(grain: nat, n: nat)
    requires grain > 0
    ensures var c := PointersCost(grain, n); c.ranges == n && c.bytes == 8 * n && Fair(grain, c)
  {
    if n > 0 {
      PointersTotal(grain, n - 1);
      FairRange(grain, 8);
      FairPlus(grain, PointersCost(grain, n - 1), RangeCost(grain, 8));
    }
  }

  predicate DistinctSymbols(codes: seq<Template>) {
    forall i, j | 0 <= i < j < |codes| :: codes[i].symbol != codes[j].symbol
  }

  predicate Names(codes: seq<Template>, symbol: nat) {
    exists i | 0 <= i < |codes| :: codes[i].symbol == symbol
  }

  /** One more variant is tried for one template at most. */
  lemma {:induction false} OneMoreTried(grain: nat, codes: seq<Template>, variants: seq<Template>, last: Template)
    requires grain > 0 && DistinctSymbols(codes)
    ensures var more := Plus(TriedCost(grain, codes, variants), if Names(codes, last.symbol) then RangeCost(grain, |last.bytes|) else FREE);
            AtMost(TriedCost(grain, codes, variants + [last]), more)
    decreases |codes|
  {
    hide RangeCost, ShapeCost, Names;
    if codes != [] {
      var n := |codes| - 1;
      OneMoreTried(grain, codes[..n], variants, last);
      OneMoreShape(grain, codes[n], variants, last);
      LastNames(codes, last.symbol);
    }
  }

  lemma LastNames(codes: seq<Template>, symbol: nat)
    requires codes != [] && DistinctSymbols(codes)
    ensures var n := |codes| - 1;
            (Names(codes, symbol) <==> Names(codes[..n], symbol) || codes[n].symbol == symbol) &&
            !(Names(codes[..n], symbol) && codes[n].symbol == symbol)
  {
    var n := |codes| - 1;
    if i :| 0 <= i < n && codes[..n][i].symbol == symbol {
      assert codes[i].symbol == symbol;
    }
  }

  lemma OneMoreShape(grain: nat, code: Template, variants: seq<Template>, last: Template)
    requires grain > 0
    ensures ShapeCost(grain, code, variants + [last]) ==
            Plus(ShapeCost(grain, code, variants), if code.symbol == last.symbol then RangeCost(grain, |last.bytes|) else FREE)
  {
    var all := variants + [last];
    assert all[..|all| - 1] == variants && all[|all| - 1] == last;
    var before := VariantsOf(variants, code.symbol);
    if code.symbol == last.symbol {
      assert (before + [last])[..|before|] == before;
    } else {
      assert before + [] == before;
    }
  }

  /** Templates have different symbols, so no variant is tried twice. */
  lemma {:induction false} TriedOnce(grain: nat, codes: seq<Template>, variants: seq<Template>)
    requires grain > 0 && DistinctSymbols(codes)
    ensures AtMost(TriedCost(grain, codes, variants), Plus(ShapesCost(grain, codes), ShapesCost(grain, variants)))
    decreases |variants|
  {
    if variants == [] {
      NoneTried(grain, codes);
    } else {
      var n := |variants| - 1;
      TriedOnce(grain, codes, variants[..n]);
      OneMoreTried(grain, codes, variants[..n], variants[n]);
      assert variants[..n] + [variants[n]] == variants;
    }
  }

  lemma {:induction false} NoneTried(grain: nat, codes: seq<Template>)
    requires grain > 0
    ensures TriedCost(grain, codes, []) == ShapesCost(grain, codes)
  {
    if codes != [] { NoneTried(grain, codes[..|codes| - 1]); }
  }

  const MOST_BYTES: nat := 262144 + 65536 + 8 * 256
  const MOST_RANGES: nat := 64 + 64 + 4096 + 256

  /** What the reread of any accepted model costs at most. */
  function MostCost(grain: nat): Cost
    requires grain > 0
  {
    Cost(MOST_RANGES, MOST_BYTES / grain + 2 * MOST_RANGES, MOST_BYTES)
  }

  lemma RereadCapped(grain: nat, model: Model)
    requires grain > 0 && Capped(model)
    ensures AtMost(RereadCost(grain, model), MostCost(grain))
  {
    hide ShapesCost, ConstantsCost, PointersCost, TriedCost, RangeCost, Fair;
    var shapes := Plus(ShapesCost(grain, model.code), ShapesCost(grain, model.variants));
    TriedOnce(grain, model.code, model.variants);
    ShapesTotal(grain, model.code);
    ShapesTotal(grain, model.variants);
    FairPlus(grain, ShapesCost(grain, model.code), ShapesCost(grain, model.variants));
    ConstantsTotal(grain, model.constants);
    PointersTotal(grain, |model.pointers|);
    TemplateBytesAdd(model.code, model.variants);
    var data := Plus(shapes, ConstantsCost(grain, model.constants));
    FairPlus(grain, shapes, ConstantsCost(grain, model.constants));
    FairPlus(grain, data, PointersCost(grain, |model.pointers|));
    FairBound(grain, Plus(data, PointersCost(grain, |model.pointers|)), MOST_RANGES, MOST_BYTES);
  }

  lemma {:induction false} TemplateBytesAdd(a: seq<Template>, b: seq<Template>)
    ensures TemplateBytes(a + b) == TemplateBytes(a) + TemplateBytes(b)
    decreases |b|
  {
    if b == [] {
      assert a + b == a;
    } else {
      var n := |b| - 1;
      TemplateBytesAdd(a, b[..n]);
      assert (a + b)[..|a + b| - 1] == a + b[..n];
    }
  }
}
