/** Why a resolution fails: every error of the contract resolver, and what about the inputs justifies it. The causes
    are stated over the image, the model, the roots and the base alone, with their limits as numbers. */
module ContractErrors {
  import opened Bindings
  import opened ContractModel
  import opened LoadedImage
  import opened ContractDomains

  datatype Error =
    | NoError | InvalidMetadata | InvalidSections | CodeScanLimit | ModelCountLimit | InvalidSymbol | InvalidCodeTemplate
    | InvalidOperand | OverlappingOperands | InvalidVariant | VariantLimit | InconsistentVariant | NoSeed
    | InvalidConstant | InvalidBase | InvalidPointer | InvalidRoot | RootCountLimit | RootPointer | RootConstant
    | ReadBounds | ReadCallLimit | InvalidWindow | ReadByteLimit | ReadFailed
    | AttemptLimit | CandidateLimit | NotFound | Unresolved | InferenceLimit
    | ComparisonLimit | Inconsistent | IterationLimit | Ambiguous | ConflictingSymbol | UnresolvedSymbol
    | CodeChanged | ConstantChanged | PointerChanged

  datatype Inputs = Inputs(image: Image, model: Model, roots: seq<Binding>, base: nat)

  // ----- the image -----

  predicate BadSection(image: Image, s: Section) {
    s.rva == 0 || s.size == 0 || s.rva + s.size > |image.bytes|
  }

  predicate Share(a: Section, b: Section) {
    a.rva < b.rva + b.size && b.rva < a.rva + a.size
  }

  ghost predicate BadSections(image: Image) {
    || (exists i | 0 <= i < |image.sections| :: BadSection(image, image.sections[i]))
    || (exists i, j | 0 <= i < j < |image.sections| :: Share(image.sections[i], image.sections[j]))
  }

  // ----- templates -----

  /** Some operand-free run of the template is long enough to search for. */
  ghost predicate Discoverable(code: Template) {
    exists o: nat :: FreeStretch(code, o, code.minimumSeed)
  }

  predicate FreeStretch(code: Template, o: nat, n: nat) {
    o + n <= |code.bytes| && forall at | o <= at < o + n :: InvariantByte(code, at)
  }

  predicate BadFields(model: Model, code: Template) {
    || |code.bytes| == 0 || |code.bytes| > 16384
    || (code.minimumSeed != 7 && code.minimumSeed != 8)
    || code.symbol >= |model.symbols| || !model.symbols[code.symbol].kind.CodeKind?
    || |code.bytes| > model.symbols[code.symbol].extent
  }

  predicate BadOperand(model: Model, code: Template, op: Operand) {
    || (op.width != 1 && op.width != 4) || op.target >= |model.symbols| || op.offset + op.width > |code.bytes|
    || (op.kind.PcRelative? && (op.pcOffset < op.offset + op.width || op.pcOffset > |code.bytes|))
    || (op.kind.ImageRva? && op.pcOffset != 0)
  }

  predicate BadOperands(model: Model, code: Template) {
    exists k | 0 <= k < |code.operands| :: BadOperand(model, code, code.operands[k])
  }

  predicate Collide(a: Operand, b: Operand) {
    a.offset < b.offset + b.width && b.offset < a.offset + a.width
  }

  predicate OperandsCollide(code: Template) {
    exists j, k | 0 <= j < k < |code.operands| :: Collide(code.operands[j], code.operands[k])
  }

  /** What is wrong with one template. */
  ghost predicate CodeCause(model: Model, code: Template, e: Error) {
    match e
    case InvalidCodeTemplate => BadFields(model, code)
    case InvalidOperand => BadOperands(model, code)
    case OverlappingOperands => OperandsCollide(code)
    case _ => false
  }

  ghost predicate GoodCode(model: Model, code: Template) {
    !BadFields(model, code) && !BadOperands(model, code) && !OperandsCollide(code)
  }

  lemma GoodShape(model: Model, code: Template)
    ensures CodeShapeOk(model, code) <==> !BadFields(model, code) && !BadOperands(model, code)
  {
    forall k | 0 <= k < |code.operands|
      ensures OperandShapeOk(model, code, code.operands[k]) <==> !BadOperand(model, code, code.operands[k])
    {
    }
  }

  predicate Named(codes: seq<Template>, symbol: nat) {
    exists i | 0 <= i < |codes| :: codes[i].symbol == symbol
  }

  /** A variant unlike a template of its symbol. */
  ghost predicate Unlike(code: Template, variant: Template) {
    variant.symbol == code.symbol && (|variant.bytes| != |code.bytes| || !(Discoverable(variant) <==> Discoverable(code)))
  }

  // ----- the whole model -----

  predicate BadSymbol(image: Image, s: Symbol) {
    if s.kind.ImageBaseKind? then s.extent > 1 else s.extent == 0 || s.extent > |image.bytes|
  }

  predicate BadConstant(model: Model, c: Constant) {
    || c.symbol >= |model.symbols| || !model.symbols[c.symbol].kind.ReadOnlyKind?
    || |c.bytes| == 0 || |c.bytes| > 4096 || c.offset + |c.bytes| > model.symbols[c.symbol].extent
  }

  predicate BadPointer(model: Model, p: Pointer) {
    || p.owner >= |model.symbols| || p.target >= |model.symbols|
    || !model.symbols[p.owner].kind.ReadOnlyKind? || !model.symbols[p.target].kind.CodeKind?
    || !Named(model.code, p.target) || p.offset % 8 != 0 || p.offset + 8 > model.symbols[p.owner].extent
  }

  predicate SameSlot(p: Pointer, q: Pointer) { p.owner == q.owner && p.offset == q.offset }

  predicate BadRoot(x: Inputs, b: Binding) {
    b.symbol >= |x.model.symbols| || !SymbolValid(x.image, x.model, b.symbol, b.rva)
  }

  ghost predicate SomeCode(model: Model, e: Error) {
    exists code | code in model.code + model.variants :: CodeCause(model, code, e)
  }

  /** The roots as a resolution problem of their own. */
  ghost function Rooted(x: Inputs): Context { Context(x.image, x.model, x.base, Elems(x.roots)) }

  /** What justifies refusing the inputs with this error. */
  ghost predicate Faulty(x: Inputs, e: Error) {
    match e
    case InvalidMetadata => |x.image.bytes| == 0 || |x.image.sections| == 0 || |x.image.sections| > 96
    case InvalidSections => BadSections(x.image)
    case CodeScanLimit => CodeSize(x.image.sections) == 0 || CodeSize(x.image.sections) > 201326592
    case ModelCountLimit =>
      || |x.model.symbols| == 0 || |x.model.symbols| > 4096 || |x.model.code| == 0 || |x.model.code| > 64
      || |x.model.constants| > 4096 || |x.model.pointers| > 256 || |x.model.variants| > 64
    case InvalidSymbol => exists s | 0 <= s < |x.model.symbols| :: BadSymbol(x.image, x.model.symbols[s])
    case InvalidCodeTemplate =>
      || SomeCode(x.model, e) || TemplateBytes(x.model.code + x.model.variants) > 262144
      || OperandCount(x.model.code + x.model.variants) > 65536
      || exists i, j | 0 <= i < j < |x.model.code| :: x.model.code[i].symbol == x.model.code[j].symbol
    case InvalidOperand => SomeCode(x.model, e)
    case OverlappingOperands => SomeCode(x.model, e)
    case InvalidVariant => exists v | 0 <= v < |x.model.variants| :: !Named(x.model.code, x.model.variants[v].symbol)
    case VariantLimit => exists v | 0 <= v < |x.model.variants| :: |VariantsOf(x.model.variants, x.model.variants[v].symbol)| > 7
    case InconsistentVariant =>
      exists i, v | 0 <= i < |x.model.code| && 0 <= v < |x.model.variants| :: Unlike(x.model.code[i], x.model.variants[v])
    case NoSeed => forall i | 0 <= i < |x.model.code| :: !Discoverable(x.model.code[i])
    case InvalidConstant =>
      (exists k | 0 <= k < |x.model.constants| :: BadConstant(x.model, x.model.constants[k])) || ConstantBytes(x.model.constants) > 65536
    case InvalidBase => x.model.pointers != [] && (x.base == 0 || x.base % 8 != 0 || x.base + |x.image.bytes| > 0xFFFF_FFFF_FFFF_FFFF)
    case InvalidPointer =>
      || (exists k | 0 <= k < |x.model.pointers| :: BadPointer(x.model, x.model.pointers[k]))
      || (exists j, k | 0 <= j < k < |x.model.pointers| :: SameSlot(x.model.pointers[j], x.model.pointers[k]))
    case RootCountLimit => |x.roots| > |x.model.symbols|
    case InvalidRoot =>
      || (exists b | b in x.roots :: BadRoot(x, b))
      || (exists j, k | 0 <= j < k < |x.roots| :: x.roots[j].symbol == x.roots[k].symbol)
    case RootPointer => ModelOk(x.image, x.model, x.base) && !FollowOk(Rooted(x), Elems(x.roots))
    case RootConstant => !ConstantsOk(Rooted(x), Elems(x.roots))
    case _ => false
  }

  /** Nothing justifies refusing the inputs. */
  ghost predicate Faultless(x: Inputs) {
    forall e: Error :: !Faulty(x, e)
  }

  // ----- how the resolver's own tests relate to this -----

  lemma SharesByte(code: Template, j: nat, k: nat, at: nat)
    requires j < k < |code.operands| && CoveredBy(code.operands[j], at) && CoveredBy(code.operands[k], at)
    ensures OperandsCollide(code)
  {
    assert Collide(code.operands[j], code.operands[k]);
  }

  lemma NoSharedByte(code: Template)
    requires forall j, k, at | 0 <= j < k < |code.operands| && CoveredBy(code.operands[k], at) :: !CoveredBy(code.operands[j], at)
    requires forall k | 0 <= k < |code.operands| :: code.operands[k].width > 0
    ensures !OperandsCollide(code)
  {
    forall j, k | 0 <= j < k < |code.operands| ensures !Collide(code.operands[j], code.operands[k]) {
      var a, b := code.operands[j], code.operands[k];
      if Collide(a, b) {
        var at := if a.offset < b.offset then b.offset else a.offset;
        assert CoveredBy(b, at) && CoveredBy(a, at);
      }
    }
  }

  /** The longest operand-free run decides whether a template can be searched for. */
  lemma SeedDecides(code: Template, exact: seq<bool>, offset: nat, size: nat)
    requires |exact| == |code.bytes| && forall at | 0 <= at < |exact| :: exact[at] <==> InvariantByte(code, at)
    requires FreeRun(exact, offset, size) && forall o: nat, n: nat | FreeRun(exact, o, n) :: n <= size
    ensures size >= code.minimumSeed <==> Discoverable(code)
  {
    if size >= code.minimumSeed {
      assert FreeStretch(code, offset, code.minimumSeed);
    }
    if o: nat :| FreeStretch(code, o, code.minimumSeed) {
      assert FreeRun(exact, o, code.minimumSeed);
    }
  }

  lemma {:induction false} VariantsCount(variants: seq<Template>, symbol: nat, v: nat)
    requires v < |variants| && variants[v].symbol == symbol
    ensures |VariantsOf(variants[..v], symbol)| < |VariantsOf(variants, symbol)|
    decreases |variants|
  {
    var n := |variants| - 1;
    if v < n {
      VariantsCount(variants[..n], symbol, v);
      assert variants[..n][..v] == variants[..v];
    }
  }

  // ----- sections in address order -----

  predicate Apart(sections: seq<Section>) {
    forall i, j | 0 <= i < j < |sections| :: !Share(sections[i], sections[j])
  }

  function InsertSection(s: Section, sorted: seq<Section>): seq<Section> {
    if sorted == [] then [s] else if s.rva <= sorted[0].rva then [s] + sorted else [sorted[0]] + InsertSection(s, sorted[1..])
  }

  function SortSections(sections: seq<Section>): seq<Section> {
    if sections == [] then [] else InsertSection(sections[0], SortSections(sections[1..]))
  }

  predicate Ascending(sections: seq<Section>) {
    forall i, j | 0 <= i < j < |sections| :: sections[i].rva <= sections[j].rva
  }

  lemma {:induction false} InsertAscends(s: Section, sorted: seq<Section>)
    requires Ascending(sorted)
    ensures var r := InsertSection(s, sorted); Ascending(r) && forall x :: x in r <==> x == s || x in sorted
  {
    if sorted != [] && s.rva > sorted[0].rva {
      InsertAscends(s, sorted[1..]);
      var rest := InsertSection(s, sorted[1..]);
      assert forall x | x in rest :: sorted[0].rva <= x.rva;
      assert sorted == [sorted[0]] + sorted[1..];
    }
  }

  lemma ApartSplits(first: Section, rest: seq<Section>)
    ensures Apart([first] + rest) <==> Apart(rest) && forall x | x in rest :: !Share(first, x)
  {
    var all := [first] + rest;
    if Apart(all) {
      forall i, j | 0 <= i < j < |rest| ensures !Share(rest[i], rest[j]) { assert !Share(all[i + 1], all[j + 1]); }
      forall x | x in rest ensures !Share(first, x) {
        var i :| 0 <= i < |rest| && rest[i] == x;
        assert !Share(all[0], all[i + 1]);
      }
    }
    if Apart(rest) && forall x | x in rest :: !Share(first, x) {
      forall i, j | 0 <= i < j < |all| ensures !Share(all[i], all[j]) {
        assert all[j] == rest[j - 1];
        if i > 0 { assert all[i] == rest[i - 1]; }
      }
    }
  }

  lemma {:induction false} InsertApart(s: Section, sorted: seq<Section>)
    requires Ascending(sorted)
    ensures Apart(InsertSection(s, sorted)) <==> Apart([s] + sorted)
  {
    if sorted != [] && s.rva > sorted[0].rva {
      hide Apart;
      var first, rest := sorted[0], sorted[1..];
      assert sorted == [first] + rest;
      InsertApart(s, rest);
      InsertAscends(s, rest);
      ApartSplits(first, InsertSection(s, rest));
      ApartSplits(s, rest);
      ApartSplits(s, sorted);
      ApartSplits(first, rest);
      assert (forall x | x in InsertSection(s, rest) :: !Share(first, x)) <==> !Share(first, s) && forall x | x in rest :: !Share(first, x);
      assert (forall x | x in sorted :: !Share(s, x)) <==> !Share(s, first) && forall x | x in rest :: !Share(s, x);
    }
  }

  lemma {:induction false} SortApart(sections: seq<Section>)
    ensures Ascending(SortSections(sections)) && (Apart(SortSections(sections)) <==> Apart(sections))
    ensures forall x :: x in SortSections(sections) <==> x in sections
  {
    if sections != [] {
      SortApart(sections[1..]);
      var rest := SortSections(sections[1..]);
      InsertAscends(sections[0], rest);
      InsertApart(sections[0], rest);
      ApartSplits(sections[0], rest);
      ApartSplits(sections[0], sections[1..]);
      assert sections == [sections[0]] + sections[1..];
    }
  }

  /** In address order it is enough that neighbours are apart. */
  lemma NeighboursDecide(sorted: seq<Section>)
    requires Ascending(sorted) && forall x | x in sorted :: x.size > 0
    requires forall k | 1 <= k < |sorted| :: Follows(sorted, k)
    ensures Apart(sorted)
  {
    forall i, j | 0 <= i < j < |sorted| ensures !Share(sorted[i], sorted[j]) {
      assert Follows(sorted, i + 1);
      assert sorted[i + 1].rva <= sorted[j].rva;
    }
  }

  predicate Follows(sorted: seq<Section>, k: nat)
    requires 1 <= k < |sorted|
  {
    sorted[k - 1].rva + sorted[k - 1].size <= sorted[k].rva
  }
}
