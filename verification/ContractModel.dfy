/** The contract resolver's inputs (loaded image, sections, code templates with address operands,
    constants, pointer relations) and the plain specification of "this template shape is present
    at this RVA", independent of how the resolver scans, reads and stores candidates. */
module ContractModel {
  import opened Bindings
  import opened LoadedImage

  const UNKNOWN: int := 0xFFFF_FFFF

  datatype SectionKind = CodeKind | ReadOnlyKind | WritableKind | ImageBaseKind
  datatype Symbol = Symbol(kind: SectionKind, extent: nat)
  datatype AddressKind = PcRelative | ImageRva
  datatype Operand = Operand(offset: nat, width: nat, pcOffset: nat, kind: AddressKind, target: nat, addend: int)
  datatype Template = Template(symbol: nat, bytes: seq<byte>, operands: seq<Operand>, minimumSeed: nat)
  datatype Constant = Constant(symbol: nat, offset: nat, bytes: seq<byte>)
  datatype Pointer = Pointer(owner: nat, offset: nat, target: nat)
  datatype Model = Model(
    symbols: seq<Symbol>,
    code: seq<Template>,
    variants: seq<Template>,
    constants: seq<Constant>,
    pointers: seq<Pointer>)

  /** One resolution problem; `fixed` holds the caller's roots and everything their pointers bind. */
  datatype Context = Context(image: Image, model: Model, base: nat, fixed: set<Binding>)

  // ----- sections -----

  predicate StaticCode(s: Section) {
    s.readable && s.executable && !s.writable && !s.discardable
  }

  predicate Supports(s: Section, kind: SectionKind) {
    match kind
    case CodeKind => StaticCode(s)
    case ReadOnlyKind => s.readable && !s.executable && !s.writable && !s.discardable
    case WritableKind => s.readable && s.writable && !s.executable && !s.discardable
    case ImageBaseKind => false
  }

  predicate Inside(s: Section, rva: int, extent: nat) {
    rva >= s.rva && rva + extent <= s.rva + s.size
  }

  predicate Containing(image: Image, rva: int, extent: nat, kind: SectionKind) {
    extent > 0 && rva + extent <= |image.bytes| &&
    exists i | 0 <= i < |image.sections| :: Supports(image.sections[i], kind) && Inside(image.sections[i], rva, extent)
  }

  predicate SymbolValid(image: Image, model: Model, index: nat, rva: int)
    requires index < |model.symbols|
  {
    if model.symbols[index].kind.ImageBaseKind? then rva == 0
    else Containing(image, rva, model.symbols[index].extent, model.symbols[index].kind)
  }

  // ----- decoding -----

  /** Little-endian value of a byte string. */
  function Le(b: seq<byte>): nat {
    if b == [] then 0 else b[0] + 256 * Le(b[1..])
  }

  predicate HasBit(value: nat, bit: nat)
    requires bit > 0
  {
    (value / bit) % 2 == 1
  }

  /** The resolver's decoder: subtract the modulus when the sign bit is set. */
  function Displacement(raw: nat, width: nat): int {
    if width == 1 then raw - (if HasBit(raw, 0x80) then 256 else 0)
    else raw - (if HasBit(raw, 0x8000_0000) then 0x1_0000_0000 else 0)
  }

  function OperandTarget(op: Operand, codeRva: int, bytes: seq<byte>): int
    requires op.offset + op.width <= |bytes|
  {
    var raw := Le(bytes[op.offset..op.offset + op.width]);
    if op.kind.PcRelative? then codeRva + op.pcOffset + Displacement(raw, op.width) else raw
  }

  function OperandBase(op: Operand, codeRva: int, bytes: seq<byte>): int
    requires op.offset + op.width <= |bytes|
  {
    OperandTarget(op, codeRva, bytes) - op.addend
  }

  /** A byte no operand covers must match the template exactly. */
  predicate CoveredBy(op: Operand, at: nat) {
    op.offset <= at < op.offset + op.width
  }

  predicate InvariantByte(code: Template, at: nat) {
    forall k | 0 <= k < |code.operands| :: !CoveredBy(code.operands[k], at)
  }

  // ----- validated models -----

  predicate OperandShapeOk(model: Model, code: Template, op: Operand) {
    && (op.width == 1 || op.width == 4)
    && op.target < |model.symbols|
    && op.offset + op.width <= |code.bytes|
    && (op.kind.PcRelative? ==> op.offset + op.width <= op.pcOffset <= |code.bytes|)
    && (op.kind.ImageRva? ==> op.pcOffset == 0)
  }

  predicate CodeShapeOk(model: Model, code: Template) {
    && 0 < |code.bytes| <= 16384
    && (code.minimumSeed == 7 || code.minimumSeed == 8)
    && code.symbol < |model.symbols|
    && model.symbols[code.symbol].kind.CodeKind?
    && |code.bytes| <= model.symbols[code.symbol].extent
    && forall k | 0 <= k < |code.operands| :: OperandShapeOk(model, code, code.operands[k])
  }

  predicate ConstantShapeOk(model: Model, c: Constant) {
    c.symbol < |model.symbols| && model.symbols[c.symbol].kind.ReadOnlyKind? && 0 < |c.bytes| <= 4096 &&
    c.offset + |c.bytes| <= model.symbols[c.symbol].extent
  }

  predicate PointerShapeOk(model: Model, p: Pointer) {
    p.owner < |model.symbols| && p.target < |model.symbols| && model.symbols[p.owner].kind.ReadOnlyKind? &&
    model.symbols[p.target].kind.CodeKind? && p.offset % 8 == 0 && p.offset + 8 <= model.symbols[p.owner].extent
  }

  ghost predicate ModelOk(image: Image, model: Model, base: nat) {
    && 0 < |image.bytes| <= UNKNOWN
    && (forall i | 0 <= i < |image.sections| :: image.sections[i].rva + image.sections[i].size <= |image.bytes|)
    && (forall i | 0 <= i < |model.code| :: CodeShapeOk(model, model.code[i]))
    && (forall i | 0 <= i < |model.variants| :: CodeShapeOk(model, model.variants[i]))
    && (forall i | 0 <= i < |model.constants| :: ConstantShapeOk(model, model.constants[i]))
    && (forall i | 0 <= i < |model.pointers| :: PointerShapeOk(model, model.pointers[i]))
    && (model.pointers != [] ==> base + |image.bytes| <= 0xFFFF_FFFF_FFFF_FFFF)
  }

  // ----- pointer relations and constants -----

  function WordAt(image: Image, at: int): int {
    if 0 <= at && at + 8 <= |image.bytes| then Le(image.bytes[at..at + 8]) else -1
  }

  predicate PointerOk(x: Context, p: Pointer, owner: int)
    requires p.target < |x.model.symbols|
  {
    var at := owner + p.offset;
    && at % 8 == 0 && at <= UNKNOWN
    && Containing(x.image, at, 8, ReadOnlyKind)
    && x.base <= WordAt(x.image, at) < x.base + |x.image.bytes|
    && SymbolValid(x.image, x.model, p.target, WordAt(x.image, at) - x.base)
  }

  /** What one pointer relation binds, given the already known bindings. */
  ghost function BoundBy(x: Context, known: set<Binding>, p: Pointer): set<Binding> {
    set b | b in known && b.symbol == p.owner :: Binding(p.target, WordAt(x.image, b.rva + p.offset) - x.base)
  }

  ghost function PointerBindings(x: Context, known: set<Binding>, n: nat): set<Binding>
    requires n <= |x.model.pointers|
  {
    if n == 0 then {} else PointerBindings(x, known, n - 1) + BoundBy(x, known, x.model.pointers[n - 1])
  }

  lemma {:induction false} PointerBindingsMember(x: Context, known: set<Binding>, n: nat, b: Binding)
    requires n <= |x.model.pointers|
    ensures b in PointerBindings(x, known, n) <==> exists k | 0 <= k < n :: b in BoundBy(x, known, x.model.pointers[k])
  {
    if n > 0 { PointerBindingsMember(x, known, n - 1, b); }
  }

  ghost predicate PointerOkFor(x: Context, known: set<Binding>, p: Pointer)
    requires p.target < |x.model.symbols|
  {
    forall b | b in known && b.symbol == p.owner :: PointerOk(x, p, b.rva)
  }

  ghost predicate PointersOk(x: Context, known: set<Binding>, n: nat)
    requires n <= |x.model.pointers|
    requires ModelOk(x.image, x.model, x.base)
  {
    forall k | 0 <= k < n :: PointerOkFor(x, known, x.model.pointers[k])
  }

  ghost function Followed(x: Context, known: set<Binding>): set<Binding> {
    known + PointerBindings(x, known, |x.model.pointers|)
  }

  ghost predicate FollowOk(x: Context, known: set<Binding>)
    requires ModelOk(x.image, x.model, x.base)
  {
    PointersOk(x, known, |x.model.pointers|) && Functional(Followed(x, known))
  }

  predicate ConstantOk(x: Context, c: Constant, rva: int) {
    var at := rva + c.offset;
    && at <= UNKNOWN
    && Containing(x.image, at, |c.bytes|, ReadOnlyKind)
    && 0 <= at && x.image.bytes[at..at + |c.bytes|] == c.bytes
  }

  ghost predicate ConstantOkFor(x: Context, known: set<Binding>, c: Constant) {
    forall b | b in known && b.symbol == c.symbol :: ConstantOk(x, c, b.rva)
  }

  ghost predicate ConstantsOk(x: Context, known: set<Binding>) {
    forall k | 0 <= k < |x.model.constants| :: ConstantOkFor(x, known, x.model.constants[k])
  }

  // ----- presence of one template shape -----

  ghost predicate BodyInside(x: Context, code: Template, rva: int) {
    && 0 <= rva && rva + |code.bytes| <= |x.image.bytes|
    && forall k | 0 <= k < |code.operands| :: code.operands[k].offset + code.operands[k].width <= |code.bytes|
  }

  ghost function BodyBytes(x: Context, code: Template, rva: int): seq<byte>
    requires BodyInside(x, code, rva)
    ensures |BodyBytes(x, code, rva)| == |code.bytes|
  {
    x.image.bytes[rva..rva + |code.bytes|]
  }

  /** The template's own location and what its first n operands address. */
  ghost function OwnBindings(x: Context, code: Template, rva: int, n: nat): set<Binding>
    requires BodyInside(x, code, rva) && n <= |code.operands|
  {
    {Binding(code.symbol, rva)} +
    set k | 0 <= k < n :: Binding(code.operands[k].target, OperandBase(code.operands[k], rva, BodyBytes(x, code, rva)))
  }

  predicate OperandOk(x: Context, op: Operand, rva: int, bytes: seq<byte>)
    requires op.offset + op.width <= |bytes| && op.target < |x.model.symbols|
  {
    && 0 <= OperandTarget(op, rva, bytes) < |x.image.bytes|
    && 0 <= OperandBase(op, rva, bytes) <= UNKNOWN
    && SymbolValid(x.image, x.model, op.target, OperandBase(op, rva, bytes))
  }

  /** Every binding a template shape located at `rva` implies. */
  ghost function CandidateSet(x: Context, code: Template, rva: int): set<Binding>
    requires BodyInside(x, code, rva)
  {
    Followed(x, OwnBindings(x, code, rva, |code.operands|))
  }

  ghost predicate BytesPresent(x: Context, code: Template, rva: int)
    requires CodeShapeOk(x.model, code)
  {
    && SymbolValid(x.image, x.model, code.symbol, rva)
    && BodyInside(x, code, rva)
    && forall at | 0 <= at < |code.bytes| && InvariantByte(code, at) :: BodyBytes(x, code, rva)[at] == code.bytes[at]
  }

  ghost predicate OperandsPresent(x: Context, code: Template, rva: int)
    requires CodeShapeOk(x.model, code) && BodyInside(x, code, rva)
  {
    forall k | 0 <= k < |code.operands| :: OperandOk(x, code.operands[k], rva, BodyBytes(x, code, rva))
  }

  /** The whole shape is in the image at `rva`: fixed bytes equal, every operand addresses a valid
      symbol, pointers and constants check, and nothing contradicts itself or the roots. */
  ghost predicate Present(x: Context, code: Template, rva: int)
    requires ModelOk(x.image, x.model, x.base) && CodeShapeOk(x.model, code)
  {
    && BytesPresent(x, code, rva)
    && OperandsPresent(x, code, rva)
    && Functional(OwnBindings(x, code, rva, |code.operands|))
    && FollowOk(x, OwnBindings(x, code, rva, |code.operands|))
    && Compatible(CandidateSet(x, code, rva), x.fixed)
    && ConstantsOk(x, CandidateSet(x, code, rva))
  }

  /** A stored candidate is the canonical binding list of one present location. */
  ghost predicate IsFor(x: Context, code: Template, rva: int, c: Candidate)
    requires ModelOk(x.image, x.model, x.base) && CodeShapeOk(x.model, code)
  {
    Present(x, code, rva) && Normalized(c) && Elems(c) == CandidateSet(x, code, rva)
  }

  /** The symbols a present shape binds do not depend on where it is. */
  ghost predicate Binds(x: Context, code: Template, symbol: nat) {
    || OwnSymbol(code, symbol)
    || exists p | p in x.model.pointers :: p.target == symbol && OwnSymbol(code, p.owner)
  }

  ghost predicate OwnSymbol(code: Template, symbol: nat) {
    symbol == code.symbol || exists k | 0 <= k < |code.operands| :: code.operands[k].target == symbol
  }

  lemma BindsIsStatic(x: Context, code: Template, rva: int, symbol: nat)
    requires BodyInside(x, code, rva)
    ensures Binds(x, code, symbol) <==> exists b | b in CandidateSet(x, code, rva) :: b.symbol == symbol
  {
    if Binds(x, code, symbol) { BindsHas(x, code, rva, symbol); }
    if b :| b in CandidateSet(x, code, rva) && b.symbol == symbol { BoundIsStatic(x, code, rva, b); }
  }

  lemma BoundIsStatic(x: Context, code: Template, rva: int, b: Binding)
    requires BodyInside(x, code, rva) && b in CandidateSet(x, code, rva)
    ensures Binds(x, code, b.symbol)
  {
    var own := OwnBindings(x, code, rva, |code.operands|);
    OwnSymbols(x, code, rva);
    if b !in own {
      PointerBindingsMember(x, own, |x.model.pointers|, b);
      var k :| 0 <= k < |x.model.pointers| && b in BoundBy(x, own, x.model.pointers[k]);
      var o :| o in own && o.symbol == x.model.pointers[k].owner;
      assert OwnSymbol(code, o.symbol);
      assert x.model.pointers[k] in x.model.pointers;
    }
  }

  lemma BindsHas(x: Context, code: Template, rva: int, symbol: nat)
    requires BodyInside(x, code, rva) && Binds(x, code, symbol)
    ensures exists b | b in CandidateSet(x, code, rva) :: b.symbol == symbol
  {
    hide WordAt, OperandBase;
    var own := OwnBindings(x, code, rva, |code.operands|);
    OwnSymbols(x, code, rva);
    if OwnSymbol(code, symbol) {
      var o :| o in own && o.symbol == symbol;
      assert o in CandidateSet(x, code, rva);
    } else {
      var k :| 0 <= k < |x.model.pointers| && x.model.pointers[k].target == symbol && OwnSymbol(code, x.model.pointers[k].owner);
      var p := x.model.pointers[k];
      var o :| o in own && o.symbol == p.owner;
      var b := Binding(p.target, WordAt(x.image, o.rva + p.offset) - x.base);
      assert b in BoundBy(x, own, p);
      PointerBindingsMember(x, own, |x.model.pointers|, b);
      assert b in CandidateSet(x, code, rva);
    }
  }

  lemma OwnSymbols(x: Context, code: Template, rva: int)
    requires BodyInside(x, code, rva)
    ensures forall s: nat :: OwnSymbol(code, s) <==> exists b | b in OwnBindings(x, code, rva, |code.operands|) :: b.symbol == s
  {
    assert Binding(code.symbol, rva) in OwnBindings(x, code, rva, |code.operands|);
    forall k | 0 <= k < |code.operands|
      ensures exists b | b in OwnBindings(x, code, rva, |code.operands|) :: b.symbol == code.operands[k].target
    {
      assert Binding(code.operands[k].target, OperandBase(code.operands[k], rva, BodyBytes(x, code, rva))) in
             OwnBindings(x, code, rva, |code.operands|);
    }
  }

  /** Every binding of a matched shape is a valid address of its symbol. */
  lemma BindingValid(x: Context, code: Template, rva: int, b: Binding)
    requires ModelOk(x.image, x.model, x.base) && CodeShapeOk(x.model, code)
    requires BytesPresent(x, code, rva) && OperandsPresent(x, code, rva)
    requires FollowOk(x, OwnBindings(x, code, rva, |code.operands|))
    requires b in CandidateSet(x, code, rva)
    ensures b.symbol < |x.model.symbols| && SymbolValid(x.image, x.model, b.symbol, b.rva)
    ensures 0 <= b.rva < |x.image.bytes|
  {
    hide WordAt, OperandTarget, SymbolValid, Containing, FollowOk;
    var own := OwnBindings(x, code, rva, |code.operands|);
    if b !in own { SlotValid(x, own, b); }
    ValidInside(x, b.symbol, b.rva);
  }

  lemma SlotValid(x: Context, known: set<Binding>, b: Binding)
    requires ModelOk(x.image, x.model, x.base) && FollowOk(x, known) && b in Followed(x, known) && b !in known
    ensures b.symbol < |x.model.symbols| && SymbolValid(x.image, x.model, b.symbol, b.rva)
  {
    hide WordAt, SymbolValid, Containing, Functional;
    PointerBindingsMember(x, known, |x.model.pointers|, b);
    var k :| 0 <= k < |x.model.pointers| && b in BoundBy(x, known, x.model.pointers[k]);
    assert PointerOkFor(x, known, x.model.pointers[k]) && PointerShapeOk(x.model, x.model.pointers[k]);
  }

  lemma ValidInside(x: Context, symbol: nat, rva: int)
    requires ModelOk(x.image, x.model, x.base) && symbol < |x.model.symbols| && SymbolValid(x.image, x.model, symbol, rva)
    ensures 0 <= rva < |x.image.bytes|
  {
  }

  // ----- a complete resolution -----

  /** The assignment gives every symbol an RVA under which every chosen shape is present with exactly
      the bindings of the assignment. */
  ghost predicate Consistent(x: Context, shapes: seq<Template>, rvas: seq<int>)
    requires ModelOk(x.image, x.model, x.base)
  {
    && |rvas| == |x.model.symbols| && |shapes| == |x.model.code|
    && (forall s | 0 <= s < |rvas| && x.model.symbols[s].kind.ImageBaseKind? :: rvas[s] == 0)
    && Respects(rvas, x.fixed)
    && forall i | 0 <= i < |shapes| :: ShapeAt(x, shapes[i], rvas)
  }

  ghost predicate Respects(rvas: seq<int>, bindings: set<Binding>) {
    forall b | b in bindings :: b.symbol < |rvas| && rvas[b.symbol] == b.rva
  }

  ghost predicate ShapeAt(x: Context, code: Template, rvas: seq<int>)
    requires ModelOk(x.image, x.model, x.base)
  {
    && CodeShapeOk(x.model, code) && code.symbol < |rvas|
    && Present(x, code, rvas[code.symbol])
    && Respects(rvas, CandidateSet(x, code, rvas[code.symbol]))
  }
}
