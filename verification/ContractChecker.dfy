/** The independent final reread of a resolution: it decodes displacements by comparison instead of by
    sign bit, accepts the declared shape or any variant of the same symbol, and never consults the
    resolver's candidates. The main result is that every published resolution passes it. */
module ContractChecker {
  import opened Bindings
  import opened ContractModel
  import opened LoadedImage
  import opened RereadBudget
  import ContractDomains
  import ContractResolver

  // ----- the checker's own decoding -----

  function SignedByComparison(raw: nat, width: nat): int {
    if width == 1 then (if raw < 128 then raw else raw - 256)
    else (if raw < 0x8000_0000 then raw else raw - 0x1_0000_0000)
  }

  function CheckedTarget(op: Operand, codeRva: int, bytes: seq<byte>): int
    requires op.offset + op.width <= |bytes|
  {
    var raw := Le(bytes[op.offset..op.offset + op.width]);
    if op.kind.PcRelative? then codeRva + op.pcOffset + SignedByComparison(raw, op.width) else raw
  }

  function Power256(n: nat): nat {
    if n == 0 then 1 else 256 * Power256(n - 1)
  }

  lemma {:induction false} LeBound(b: seq<byte>)
    ensures Le(b) < Power256(|b|)
  {
    if b != [] { LeBound(b[1..]); }
  }

  lemma {:induction false} LeAppend(b: seq<byte>, last: byte)
    ensures Le(b + [last]) == Le(b) + last * Power256(|b|)
  {
    if b == [] {
      assert b + [last] == [last];
    } else {
      LeAppend(b[1..], last);
      assert (b + [last])[1..] == b[1..] + [last];
      assert last * Power256(|b|) == 256 * (last * Power256(|b| - 1));
    }
  }

  lemma LeNext(b: seq<byte>, at: nat, n: nat)
    requires at + n < |b|
    ensures Le(b[at..at + n + 1]) == Le(b[at..at + n]) + b[at + n] * Power256(n)
  {
    LeAppend(b[at..at + n], b[at + n]);
    assert b[at..at + n] + [b[at + n]] == b[at..at + n + 1];
  }

  lemma Powers()
    ensures Power256(0) == 1 && Power256(1) == 0x100 && Power256(2) == 0x1_0000
    ensures Power256(3) == 0x100_0000 && Power256(4) == 0x1_0000_0000
  {
    assert Power256(1) == 256 * Power256(0);
    assert Power256(2) == 256 * Power256(1);
    assert Power256(3) == 256 * Power256(2);
    assert Power256(4) == 256 * Power256(3);
  }

  /** The two separately written signed decoders give the same displacement for every encodable value. */
  lemma DecodersAgree(raw: nat, width: nat)
    requires width == 1 || width == 4
    requires raw < Power256(width)
    ensures Displacement(raw, width) == SignedByComparison(raw, width)
  {
    Powers();
    if width == 1 {
      assert raw / 0x80 == if raw < 128 then 0 else 1;
    } else {
      assert raw / 0x8000_0000 == if raw < 0x8000_0000 then 0 else 1;
    }
  }

  lemma TargetsAgree(op: Operand, codeRva: int, bytes: seq<byte>)
    requires op.offset + op.width <= |bytes| && (op.width == 1 || op.width == 4)
    ensures CheckedTarget(op, codeRva, bytes) == OperandTarget(op, codeRva, bytes)
  {
    var field := bytes[op.offset..op.offset + op.width];
    LeBound(field);
    DecodersAgree(Le(field), op.width);
  }

  // ----- what the checker accepts -----

  predicate InImage(image: Image, rva: int, size: nat) {
    size == 0 || (0 <= rva && rva + size <= |image.bytes|)
  }

  function Bytes(image: Image, rva: int, size: nat): (r: seq<byte>)
    requires InImage(image, rva, size)
    ensures |r| == size
  {
    if size == 0 then [] else image.bytes[rva..rva + size]
  }

  predicate OperandAgrees(op: Operand, codeRva: int, bytes: seq<byte>, symbols: seq<nat>) {
    && op.target < |symbols| && op.offset + op.width <= |bytes| && (op.width == 1 || op.width == 4)
    && CheckedTarget(op, codeRva, bytes) == symbols[op.target] + op.addend
  }

  /** One declared shape, reread in full at its resolved address. */
  predicate TemplateMatches(image: Image, code: Template, symbols: seq<nat>)
    requires code.symbol < |symbols|
  {
    var rva := symbols[code.symbol];
    && InImage(image, rva, |code.bytes|)
    && (forall k | 0 <= k < |code.operands| ::
          OperandAgrees(code.operands[k], rva, Bytes(image, rva, |code.bytes|), symbols))
    && forall at | 0 <= at < |code.bytes| && InvariantByte(code, at) :: Bytes(image, rva, |code.bytes|)[at] == code.bytes[at]
  }

  predicate SomeShapeMatches(image: Image, model: Model, code: Template, symbols: seq<nat>) {
    && code.symbol < |symbols|
    && (TemplateMatches(image, code, symbols) || SomeVariantMatches(image, model, code, symbols))
  }

  predicate SomeVariantMatches(image: Image, model: Model, code: Template, symbols: seq<nat>)
    requires code.symbol < |symbols|
  {
    exists v | 0 <= v < |model.variants| ::
      model.variants[v].symbol == code.symbol && TemplateMatches(image, model.variants[v], symbols)
  }

  predicate ConstantMatches(image: Image, c: Constant, symbols: seq<nat>) {
    && c.symbol < |symbols| && symbols[c.symbol] + c.offset <= UNKNOWN
    && InImage(image, symbols[c.symbol] + c.offset, |c.bytes|)
    && Bytes(image, symbols[c.symbol] + c.offset, |c.bytes|) == c.bytes
  }

  predicate PointerMatches(image: Image, base: nat, p: Pointer, symbols: seq<nat>) {
    && p.owner < |symbols| && p.target < |symbols|
    && symbols[p.owner] + p.offset <= UNKNOWN && base + symbols[p.target] <= 0xFFFF_FFFF_FFFF_FFFF
    && InImage(image, symbols[p.owner] + p.offset, 8)
    && Le(Bytes(image, symbols[p.owner] + p.offset, 8)) == base + symbols[p.target]
  }

  predicate CodeAcceptable(image: Image, model: Model, symbols: seq<nat>) {
    forall i | 0 <= i < |model.code| :: SomeShapeMatches(image, model, model.code[i], symbols)
  }

  predicate ConstantsAcceptable(image: Image, model: Model, symbols: seq<nat>) {
    forall k | 0 <= k < |model.constants| :: ConstantMatches(image, model.constants[k], symbols)
  }

  predicate PointersAcceptable(image: Image, model: Model, base: nat, symbols: seq<nat>) {
    forall k | 0 <= k < |model.pointers| :: PointerMatches(image, base, model.pointers[k], symbols)
  }

  predicate Acceptable(image: Image, model: Model, base: nat, symbols: seq<nat>) {
    && |symbols| == |model.symbols| && CodeAcceptable(image, model, symbols)
    && ConstantsAcceptable(image, model, symbols) && PointersAcceptable(image, model, base, symbols)
  }

  // ----- the checker -----

  /** The budgeted reader: at most 131072 queries, as many copies, and 512 MiB, shared by everything that read
      before. The image is readable: where more is asked the source grants windows of at least `grain` bytes,
      or all that is left of the image; 32768 means whole windows. */
  class ContractReader {
    const image: Image
    const grain: nat
    var spent: Spent

    ghost predicate Valid() { 0 < grain <= WINDOW }

    constructor (image: Image, grain: nat, spent: Spent)
      requires 0 < grain <= WINDOW
      ensures this.image == image && this.grain == grain && this.spent == spent && Valid()
    {
      this.image, this.grain, this.spent := image, grain, spent;
    }

    /** A window cut to 32768 bytes; zero past the image or past the query limit, and only there. */
    method Query(rva: nat, maximum: nat) returns (size: nat)
      requires Valid() && maximum > 0
      modifies this`spent
      ensures spent == old(spent).(queries := old(spent).queries + 1)
      ensures size <= maximum && size <= WINDOW && rva + size <= if size == 0 then rva else |image.bytes|
      ensures size == 0 <==> spent.queries > CALL_LIMIT || rva >= |image.bytes|
      ensures size > 0 ==> size >= grain || size == maximum || rva + size == |image.bytes|
    {
      spent := spent.(queries := spent.queries + 1);
      if spent.queries > CALL_LIMIT || rva >= |image.bytes| { return 0; }
      var bounded := if maximum < WINDOW then maximum else WINDOW;
      var room := |image.bytes| - rva;
      var most := if bounded < room then bounded else room;
      var offered: nat := *;
      size := if grain <= offered < most then offered else most;
    }

    /** Copies a granted window unless a limit is reached. */
    method Read(rva: nat, size: nat) returns (ok: bool, r: seq<byte>)
      requires 0 < size <= WINDOW && rva + size <= |image.bytes|
      modifies this`spent
      ensures ok <==> old(spent).copies + 1 <= CALL_LIMIT && old(spent).bytes + size <= BYTE_LIMIT
      ensures ok ==> r == image.bytes[rva..rva + size]
      ensures spent == old(spent).(copies := old(spent).copies + 1, bytes := old(spent).bytes + if ok then size else 0)
    {
      spent := spent.(copies := spent.copies + 1);
      if spent.copies > CALL_LIMIT || size + spent.bytes > BYTE_LIMIT { return false, []; }
      spent := spent.(bytes := spent.bytes + size);
      return true, image.bytes[rva..rva + size];
    }

    /** Assembles a range from whatever windows the reader grants. It charges no more than the range's cost, and
        when that is affordable fails exactly for a range that leaves the image. */
    method Exact(rva: nat, size: nat) returns (ok: bool, r: seq<byte>)
      requires Valid()
      modifies this`spent
      ensures ok ==> InImage(image, rva, size) && r == Bytes(image, rva, size)
      ensures Charged(old(spent), spent, RangeCost(grain, size))
      ensures Affordable(old(spent), RangeCost(grain, size)) ==> (ok <==> InImage(image, rva, size))
    {
      r := [];
      ghost var calls := 0;
      while |r| < size
        invariant |r| <= size && (|r| > 0 ==> rva + |r| <= |image.bytes| && r == image.bytes[rva..rva + |r|])
        invariant spent.queries == old(spent).queries + calls && spent.copies == old(spent).copies + calls
        invariant spent.bytes == old(spent).bytes + |r|
        invariant calls * grain <= |r| + grain
        invariant |r| < size && rva + |r| < |image.bytes| ==> calls * grain <= |r|
      {
        CallsBound(calls, grain, |r|, size);
        var window := Query(rva + |r|, size - |r|);
        if window == 0 { return false, r; }
        var read, piece := Read(rva + |r|, window);
        if !read { return false, r; }
        assert image.bytes[rva..rva + |r|] + piece == image.bytes[rva..rva + |r| + window];
        OneMoreCall(calls, grain);
        r := r + piece;
        calls := calls + 1;
      }
      CallsBound(calls, grain, |r|, size);
      ok := true;
    }

    static lemma OneMoreCall(calls: nat, grain: nat)
      ensures (calls + 1) * grain == calls * grain + grain
    {
    }

    static lemma CallsBound(calls: nat, grain: nat, done: nat, size: nat)
      requires grain > 0 && calls * grain <= done + grain && done <= size
      ensures calls <= size / grain + 1 && (done < size ==> calls + 1 <= size / grain + 2)
    {
      var q := size / grain;
      assert size < (q + 1) * grain;
      assert (q + 2) * grain == (q + 1) * grain + grain;
      if calls > q + 1 { Scales(q + 2, calls, grain); }
    }
  }

  class Checker {
    const model: Model
    const base: nat
    const reader: ContractReader

    constructor (model: Model, base: nat, reader: ContractReader)
      ensures this.model == model && this.base == base && this.reader == reader
    {
      this.model, this.base, this.reader := model, base, reader;
    }

    /** Decodes one operand and marks its bytes as variable. */
    static method CheckOperand(op: Operand, codeRva: nat, bytes: seq<byte>, symbols: seq<nat>, marks: seq<bool>)
      returns (ok: bool, r: seq<bool>)
      requires |marks| == |bytes|
      ensures ok <==> OperandAgrees(op, codeRva, bytes, symbols)
      ensures |r| == |bytes| && (ok ==> forall at | 0 <= at < |r| :: r[at] <==> marks[at] || CoveredBy(op, at))
    {
      r := marks;
      if op.target >= |symbols| || op.offset > |bytes| || op.width > |bytes| - op.offset || (op.width != 1 && op.width != 4) {
        return false, r;
      }
      var raw: nat := 0;
      for n := 0 to op.width
        invariant raw == Le(bytes[op.offset..op.offset + n]) && |r| == |bytes|
        invariant forall at | 0 <= at < |r| :: r[at] <==> marks[at] || op.offset <= at < op.offset + n
      {
        LeNext(bytes, op.offset, n);
        raw := raw + bytes[op.offset + n] * Power256(n);
        r := r[op.offset + n := true];
      }
      var target: int := raw;
      if op.kind.PcRelative? {
        target := codeRva + op.pcOffset + SignedByComparison(raw, op.width);
      }
      ok := target == symbols[op.target] + op.addend;
    }

    /** Decodes every operand; what none of them covers stays unmarked. */
    static method CheckOperands(code: Template, codeRva: nat, bytes: seq<byte>, symbols: seq<nat>)
      returns (ok: bool, marks: seq<bool>)
      ensures ok <==> forall k | 0 <= k < |code.operands| :: OperandAgrees(code.operands[k], codeRva, bytes, symbols)
      ensures |marks| == |bytes| && (ok ==> forall at | 0 <= at < |marks| :: marks[at] <==> !InvariantByte(code, at))
    {
      marks := seq(|bytes|, i => false);
      for k := 0 to |code.operands|
        invariant |marks| == |bytes|
        invariant forall j | 0 <= j < k :: OperandAgrees(code.operands[j], codeRva, bytes, symbols)
        invariant forall at | 0 <= at < |marks| :: marks[at] <==> exists j | 0 <= j < k :: CoveredBy(code.operands[j], at)
      {
        ok, marks := CheckOperand(code.operands[k], codeRva, bytes, symbols, marks);
        if !ok { return; }
      }
      ok := true;
    }

    static method SameUnmarked(marks: seq<bool>, bytes: seq<byte>, expected: seq<byte>) returns (same: bool)
      requires |marks| == |bytes| == |expected|
      ensures same <==> forall at | 0 <= at < |bytes| && !marks[at] :: bytes[at] == expected[at]
    {
      for at := 0 to |bytes|
        invariant forall k | 0 <= k < at && !marks[k] :: bytes[k] == expected[k]
      {
        if !marks[at] && bytes[at] != expected[at] { return false; }
      }
      return true;
    }

    /** Exactly one declared shape, reread in full. */
    method SameTemplate(code: Template, symbols: seq<nat>) returns (same: bool)
      requires reader.Valid() && code.symbol < |symbols|
      modifies reader`spent
      ensures same ==> TemplateMatches(reader.image, code, symbols)
      ensures Charged(old(reader.spent), reader.spent, RangeCost(reader.grain, |code.bytes|))
      ensures Affordable(old(reader.spent), RangeCost(reader.grain, |code.bytes|)) ==>
                (same <==> TemplateMatches(reader.image, code, symbols))
    {
      hide OperandAgrees, RangeCost;
      var rva := symbols[code.symbol];
      var bytes, marks;
      same, bytes := reader.Exact(rva, |code.bytes|);
      if !same { return; }
      same, marks := CheckOperands(code, rva, bytes, symbols);
      if !same { return; }
      same := SameUnmarked(marks, bytes, code.bytes);
    }

    /** The declared shape or any variant of its symbol. */
    method SameShape(code: Template, symbols: seq<nat>) returns (same: bool)
      requires reader.Valid()
      modifies reader`spent
      ensures same ==> SomeShapeMatches(reader.image, model, code, symbols)
      ensures Charged(old(reader.spent), reader.spent, ShapeCost(reader.grain, code, model.variants))
      ensures Affordable(old(reader.spent), ShapeCost(reader.grain, code, model.variants)) ==>
                (same <==> SomeShapeMatches(reader.image, model, code, symbols))
    {
      hide TemplateMatches, RangeCost, ShapesCost;
      if code.symbol >= |symbols| { return false; }
      same := SameTemplate(code, symbols);
      if !same { same := SameVariant(code, symbols); }
    }

    method SameVariant(code: Template, symbols: seq<nat>) returns (same: bool)
      requires reader.Valid() && code.symbol < |symbols|
      modifies reader`spent
      ensures same ==> SomeVariantMatches(reader.image, model, code, symbols)
      ensures Charged(old(reader.spent), reader.spent, ShapesCost(reader.grain, ContractDomains.VariantsOf(model.variants, code.symbol)))
      ensures Affordable(old(reader.spent), ShapesCost(reader.grain, ContractDomains.VariantsOf(model.variants, code.symbol))) ==>
                (same <==> SomeVariantMatches(reader.image, model, code, symbols))
    {
      hide TemplateMatches, RangeCost;
      ghost var g, variants := reader.grain, model.variants;
      ghost var payable := Affordable(old(reader.spent), ShapesCost(g, ContractDomains.VariantsOf(variants, code.symbol)));
      assert model.variants[..0] == [] && ShapesCost(g, []) == FREE;
      for v := 0 to |model.variants|
        invariant Charged(old(reader.spent), reader.spent, ShapesCost(g, ContractDomains.VariantsOf(variants[..v], code.symbol)))
        invariant payable ==> forall w | 0 <= w < v && variants[w].symbol == code.symbol :: !TemplateMatches(reader.image, variants[w], symbols)
      {
        VariantsPrefix(g, variants, code.symbol, v);
        if model.variants[v].symbol == code.symbol {
          same := SameTemplate(model.variants[v], symbols);
          if same { return; }
        }
      }
      assert variants[..|variants|] == variants;
      same := false;
    }

    method SameConstant(c: Constant, symbols: seq<nat>) returns (same: bool)
      requires reader.Valid()
      modifies reader`spent
      ensures same ==> ConstantMatches(reader.image, c, symbols)
      ensures Charged(old(reader.spent), reader.spent, RangeCost(reader.grain, |c.bytes|))
      ensures Affordable(old(reader.spent), RangeCost(reader.grain, |c.bytes|)) ==> (same <==> ConstantMatches(reader.image, c, symbols))
    {
      hide RangeCost;
      if c.symbol >= |symbols| || c.offset + symbols[c.symbol] > UNKNOWN { return false; }
      var bytes;
      same, bytes := reader.Exact(symbols[c.symbol] + c.offset, |c.bytes|);
      same := same && bytes == c.bytes;
    }

    method SamePointer(p: Pointer, symbols: seq<nat>) returns (same: bool)
      requires reader.Valid()
      modifies reader`spent
      ensures same ==> PointerMatches(reader.image, base, p, symbols)
      ensures Charged(old(reader.spent), reader.spent, RangeCost(reader.grain, 8))
      ensures Affordable(old(reader.spent), RangeCost(reader.grain, 8)) ==> (same <==> PointerMatches(reader.image, base, p, symbols))
    {
      hide RangeCost;
      if p.owner >= |symbols| || p.target >= |symbols| || p.offset + symbols[p.owner] > UNKNOWN ||
         base + symbols[p.target] > 0xFFFF_FFFF_FFFF_FFFF
      {
        return false;
      }
      var bytes;
      same, bytes := reader.Exact(symbols[p.owner] + p.offset, 8);
      same := same && Le(bytes) == base + symbols[p.target];
    }

    method SameCode(symbols: seq<nat>) returns (same: bool)
      requires reader.Valid()
      modifies reader`spent
      ensures same ==> CodeAcceptable(reader.image, model, symbols)
      ensures Charged(old(reader.spent), reader.spent, TriedCost(reader.grain, model.code, model.variants))
      ensures Affordable(old(reader.spent), TriedCost(reader.grain, model.code, model.variants)) ==>
                (same <==> CodeAcceptable(reader.image, model, symbols))
    {
      hide SomeShapeMatches, ShapeCost;
      for i := 0 to |model.code|
        invariant forall j | 0 <= j < i :: SomeShapeMatches(reader.image, model, model.code[j], symbols)
        invariant Charged(old(reader.spent), reader.spent, TriedCost(reader.grain, model.code[..i], model.variants))
      {
        TriedPrefix(reader.grain, model.code, model.variants, i);
        assert model.code[..i + 1][..i] == model.code[..i];
        same := SameShape(model.code[i], symbols);
        if !same { return; }
      }
      assert model.code[..|model.code|] == model.code;
      same := true;
    }

    method SameConstants(symbols: seq<nat>) returns (same: bool)
      requires reader.Valid()
      modifies reader`spent
      ensures same ==> ConstantsAcceptable(reader.image, model, symbols)
      ensures Charged(old(reader.spent), reader.spent, ConstantsCost(reader.grain, model.constants))
      ensures Affordable(old(reader.spent), ConstantsCost(reader.grain, model.constants)) ==>
                (same <==> ConstantsAcceptable(reader.image, model, symbols))
    {
      hide ConstantMatches, RangeCost;
      for k := 0 to |model.constants|
        invariant forall j | 0 <= j < k :: ConstantMatches(reader.image, model.constants[j], symbols)
        invariant Charged(old(reader.spent), reader.spent, ConstantsCost(reader.grain, model.constants[..k]))
      {
        ConstantsPrefix(reader.grain, model.constants, k);
        assert model.constants[..k + 1][..k] == model.constants[..k];
        same := SameConstant(model.constants[k], symbols);
        if !same { return; }
      }
      assert model.constants[..|model.constants|] == model.constants;
      same := true;
    }

    method SamePointers(symbols: seq<nat>) returns (same: bool)
      requires reader.Valid()
      modifies reader`spent
      ensures same ==> PointersAcceptable(reader.image, model, base, symbols)
      ensures Charged(old(reader.spent), reader.spent, PointersCost(reader.grain, |model.pointers|))
      ensures Affordable(old(reader.spent), PointersCost(reader.grain, |model.pointers|)) ==>
                (same <==> PointersAcceptable(reader.image, model, base, symbols))
    {
      hide PointerMatches, RangeCost;
      for k := 0 to |model.pointers|
        invariant forall j | 0 <= j < k :: PointerMatches(reader.image, base, model.pointers[j], symbols)
        invariant Charged(old(reader.spent), reader.spent, PointersCost(reader.grain, k))
      {
        PointersPrefix(reader.grain, k, |model.pointers|);
        same := SamePointer(model.pointers[k], symbols);
        if !same { return; }
      }
      same := true;
    }

    /** The final reread: within its cost, accepts exactly the acceptable assignments. */
    method SameTemplates(symbols: seq<nat>) returns (same: bool)
      requires reader.Valid()
      modifies reader`spent
      ensures same ==> Acceptable(reader.image, model, base, symbols)
      ensures Charged(old(reader.spent), reader.spent, RereadCost(reader.grain, model))
      ensures Affordable(old(reader.spent), RereadCost(reader.grain, model)) ==>
                (same <==> Acceptable(reader.image, model, base, symbols))
    {
      hide CodeAcceptable, ConstantsAcceptable, PointersAcceptable, TriedCost, ConstantsCost, PointersCost;
      if |symbols| != |model.symbols| { return false; }
      same := SameCode(symbols);
      if !same { return; }
      same := SameConstants(symbols);
      if !same { return; }
      same := SamePointers(symbols);
    }
  }

  // ----- every published resolution is acceptable -----

  /** A shape present with exactly the bindings of the assignment passes the reread. */
  lemma ShapeAccepted(x: Context, code: Template, symbols: seq<nat>)
    requires ModelOk(x.image, x.model, x.base) && ShapeAt(x, code, symbols)
    ensures TemplateMatches(x.image, code, symbols)
  {
    hide FollowOk, ConstantsOk, SymbolValid, Followed, Functional, Compatible;
    var rva := symbols[code.symbol];
    assert Bytes(x.image, rva, |code.bytes|) == BodyBytes(x, code, rva);
    forall k | 0 <= k < |code.operands|
      ensures OperandAgrees(code.operands[k], rva, BodyBytes(x, code, rva), symbols)
    {
      OperandAccepted(x, code, symbols, k);
    }
  }

  lemma OperandAccepted(x: Context, code: Template, symbols: seq<nat>, k: nat)
    requires ModelOk(x.image, x.model, x.base) && ShapeAt(x, code, symbols) && k < |code.operands|
    ensures OperandAgrees(code.operands[k], symbols[code.symbol], BodyBytes(x, code, symbols[code.symbol]), symbols)
  {
    hide FollowOk, ConstantsOk, SymbolValid, Functional, Compatible, PointerBindings, CheckedTarget, OperandTarget;
    var op, rva := code.operands[k], symbols[code.symbol];
    var bytes := BodyBytes(x, code, rva);
    assert OperandShapeOk(x.model, code, op);
    TargetsAgree(op, rva, bytes);
    assert Binding(op.target, OperandBase(op, rva, bytes)) in OwnBindings(x, code, rva, |code.operands|);
    assert Binding(op.target, OperandBase(op, rva, bytes)) in CandidateSet(x, code, rva);
  }

  lemma ConstantAccepted(x: Context, c: Constant, symbols: seq<nat>)
    requires c.symbol < |symbols| && ConstantOk(x, c, symbols[c.symbol])
    ensures ConstantMatches(x.image, c, symbols)
  {
  }

  lemma PointerAccepted(x: Context, p: Pointer, symbols: seq<nat>)
    requires x.base + |x.image.bytes| <= 0xFFFF_FFFF_FFFF_FFFF
    requires ContractDomains.PointerMatches(x, symbols, p)
    ensures PointerMatches(x.image, x.base, p, symbols)
  {
    hide SymbolValid;
    var at := symbols[p.owner] + p.offset;
    assert Bytes(x.image, at, 8) == x.image.bytes[at..at + 8];
  }

  /** Consistent with shapes the model declares, constants and pointer slots in place: the checker must accept. */
  lemma ResolutionAccepted(x: Context, shapes: seq<Template>, symbols: seq<nat>)
    requires ModelOk(x.image, x.model, x.base) && Consistent(x, shapes, symbols)
    requires ContractDomains.ConstantsMatch(x, symbols) && ContractDomains.PointersMatch(x, symbols)
    requires forall i | 0 <= i < |shapes| ::
               shapes[i] == x.model.code[i] || (shapes[i] in x.model.variants && shapes[i].symbol == x.model.code[i].symbol)
    ensures Acceptable(x.image, x.model, x.base, symbols)
  {
    hide ShapeAt, SomeShapeMatches, ConstantOk, ConstantMatches, PointerMatches, ContractDomains.PointerMatches, Respects;
    forall i | 0 <= i < |x.model.code| ensures SomeShapeMatches(x.image, x.model, x.model.code[i], symbols) {
      SomeShapeAccepted(x, x.model.code[i], shapes[i], symbols);
    }
    forall k | 0 <= k < |x.model.constants| ensures ConstantMatches(x.image, x.model.constants[k], symbols) {
      ConstantAccepted(x, x.model.constants[k], symbols);
    }
    forall k | 0 <= k < |x.model.pointers| ensures PointerMatches(x.image, x.base, x.model.pointers[k], symbols) {
      PointerAccepted(x, x.model.pointers[k], symbols);
    }
  }

  lemma SomeShapeAccepted(x: Context, code: Template, shape: Template, symbols: seq<nat>)
    requires ModelOk(x.image, x.model, x.base) && ShapeAt(x, shape, symbols)
    requires shape == code || (shape in x.model.variants && shape.symbol == code.symbol)
    ensures SomeShapeMatches(x.image, x.model, code, symbols)
  {
    hide TemplateMatches, Present, CodeShapeOk;
    ShapeAccepted(x, shape, symbols);
  }

  /** Resolution through any reader and final reread of one unchanging readable image, `spent` being what resolution and every other
      inspection charged before the reread. A valid resolution is accepted whenever the reader's remaining
      allowance covers the most a reread can cost; with whole windows that is 8970 calls and 329728 bytes. */
  method ResolveAndCheck(image: Image, model: Model, roots: seq<Binding>, base: nat, reader: Reader, grain: nat,
                         spent: Spent)
    returns (resolved: bool, accepted: bool, symbols: seq<int>)
    requires |image.bytes| <= UNKNOWN && 0 < grain <= WINDOW
    ensures resolved && Affordable(spent, MostCost(grain)) ==> accepted
    ensures accepted ==> resolved && |symbols| == |model.symbols| && (forall s | 0 <= s < |symbols| :: 0 <= symbols[s])
    ensures accepted ==> Acceptable(image, model, base, symbols)
    ensures resolved ==> (forall s | 0 <= s < |symbols| :: 0 <= symbols[s]) && Acceptable(image, model, base, symbols)
  {
    hide Acceptable;
    var resolver := new ContractResolver.Resolver(image, model, roots, base, reader);
    resolved, symbols := resolver.Resolve();
    accepted := false;
    if !resolved { return; }
    ghost var x := resolver.Ctx();
    AdoptedDeclared(resolver, symbols);
    ResolutionAccepted(x, ContractDomains.Codes(resolver.bodies, resolver.selected), symbols);
    RereadCapped(grain, model);
    var bounded := new ContractReader(image, grain, spent);
    var checker := new Checker(model, base, bounded);
    accepted := checker.SameTemplates(symbols);
  }

  /** With whole windows, or windows of a page, the reread fits easily: it needs at most 9040 of 131072 calls. */
  lemma PageWindowsSuffice(grain: nat, spent: Spent)
    requires grain >= 4096 && spent.queries <= CALL_LIMIT - 9040 && spent.copies <= CALL_LIMIT - 9040
    requires spent.bytes <= BYTE_LIMIT - MOST_BYTES
    ensures Affordable(spent, MostCost(grain))
  {
    var windows := MOST_BYTES / grain;
    assert windows * grain <= MOST_BYTES;
    Scales(4096, grain, windows);
  }

  lemma AdoptedDeclared(resolver: ContractResolver.Resolver, symbols: seq<int>)
    requires resolver.Published(symbols) && resolver.Declared()
    ensures var codes := ContractDomains.Codes(resolver.bodies, resolver.selected);
            forall i | 0 <= i < |codes| ::
              codes[i] == resolver.model.code[i] ||
              (codes[i] in resolver.model.variants && codes[i].symbol == resolver.model.code[i].symbol)
  {
    hide Consistent;
    var codes := ContractDomains.Codes(resolver.bodies, resolver.selected);
    forall i | 0 <= i < |codes|
      ensures codes[i] == resolver.model.code[i] ||
              (codes[i] in resolver.model.variants && codes[i].symbol == resolver.model.code[i].symbol)
    {
      assert codes[i] == resolver.bodies[i][resolver.selected[i]].code;
    }
  }
}
