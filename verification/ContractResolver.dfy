/** The contract resolver: validates the model, scans static code for seeds, matches whole template
    shapes, infers short templates, prunes by arc consistency and publishes one assignment. */
module ContractResolver {
  import opened Bindings
  import opened ContractModel
  import opened LoadedImage
  import opened ContractDomains
  import opened ContractErrors
  import ContractReread

  const CHUNK: nat := 32768
  const CODE_LIMIT: nat := 192 * 1024 * 1024
  const READ_LIMIT: nat := 512 * 1024 * 1024

  /** What the inference has found, at some moment. */
  datatype Inference = Inference(domains: seq<seq<Candidate>>, selected: seq<nat>, visited: seq<set<int>>, count: nat)

  class Resolver {
    const image: Image
    const model: Model
    const roots: seq<Binding>
    const base: nat
    const reader: Reader

    var fixed: Candidate
    var error: Error
    var readCalls: nat
    var requestedBytes: nat
    var scannedBytes: nat
    var candidateCount: nat
    var attempts: nat

    // Per template: its shapes, and for every shape the candidates found and the locations attempted;
    // the adopted shape and the candidate domain that shape filled.
    var bodies: seq<seq<Body>>
    var found: seq<seq<seq<Candidate>>>
    var attempted: seq<seq<set<int>>>
    var selected: seq<nat>
    var domains: seq<seq<Candidate>>
    var templateFor: seq<int>
    var seeds: map<nat, seq<(nat, nat)>>
    var maximumSeed: nat

    // Locations offered so far to each short template, and the order in which templates became nonempty.
    ghost var visited: seq<set<int>>
    ghost var order: seq<nat>

    // The domains as the inference left them.
    ghost var unpruned: seq<seq<Candidate>>

    ghost function Ctx(): Context
      reads this`fixed
    {
      Context(image, model, base, Elems(fixed))
    }

    ghost predicate Ok() {
      ModelOk(image, model, base)
    }

    ghost function In(): Inputs { Inputs(image, model, roots, base) }

    /** The reader refused, or its allowance of 65536 calls or 512 MiB is used up. */
    ghost predicate ReadCause(e: Error)
      reads this`readCalls, this`requestedBytes
    {
      match e
      case ReadCallLimit => readCalls >= 65536
      case ReadByteLimit => requestedBytes + 32768 > 536870912
      case InvalidWindow => !Willing(reader)
      case ReadFailed => !Willing(reader)
      case _ => false
    }

    /** Only reading trouble, and the first error stays. */
    ghost predicate Stopped(before: Error)
      reads this`error, this`readCalls, this`requestedBytes
    {
      if before == NoError then ReadCause(error) else error == before
    }

    method Fail(e: Error)
      requires e != NoError
      modifies this`error
      ensures error == if old(error) == NoError then e else old(error)
    {
      if error == NoError { error := e; }
    }

    /** Reads through windows of any size the reader chooses; a reader, once it grants a window, either
        copies the image bytes or refuses. */
    method Read(rva: int, size: nat) returns (ok: bool, bytes: seq<byte>)
      modifies this`error, this`readCalls, this`requestedBytes
      ensures ok ==> 0 <= rva && rva + size <= |image.bytes| && bytes == image.bytes[rva..rva + size]
      ensures ok ==> error == old(error) && requestedBytes == old(requestedBytes) + size
      ensures !ok ==> Stopped(old(error)) || size == 0 || rva < 0 || rva + size > |image.bytes|
      ensures !ok ==> error != NoError
      ensures 0 <= readCalls - old(readCalls) <= requestedBytes - old(requestedBytes) <= size
    {
      hide Willing;
      bytes := [];
      if size == 0 || rva < 0 || rva + size > |image.bytes| {
        Fail(ReadBounds);
        return false, bytes;
      }
      while |bytes| < size
        invariant |bytes| <= size && bytes == image.bytes[rva..rva + |bytes|]
        invariant error == old(error) && requestedBytes == old(requestedBytes) + |bytes|
        invariant 0 <= readCalls - old(readCalls) <= |bytes|
      {
        if readCalls >= 65536 {
          Fail(ReadCallLimit);
          return false, bytes;
        }
        var at := rva + |bytes|;
        var maximum := if size - |bytes| < CHUNK then size - |bytes| else CHUNK;
        var window := reader(readCalls, at, maximum);
        if !window.readable || window.size == 0 || window.size > maximum {
          Refuses(reader, readCalls, at, maximum);
          Fail(InvalidWindow);
          return false, bytes;
        }
        if requestedBytes + window.size > READ_LIMIT {
          Fail(ReadByteLimit);
          return false, bytes;
        }
        readCalls := readCalls + 1;
        requestedBytes := requestedBytes + window.size;
        if !window.copied {
          Refuses(reader, readCalls - 1, at, maximum);
          Fail(ReadFailed);
          return false, bytes;
        }
        bytes := bytes + image.bytes[at..at + window.size];
      }
      return true, bytes;
    }

    static lemma Refuses(reader: Reader, n: nat, at: int, maximum: nat)
      requires maximum > 0 && !Granted(reader(n, at, maximum), maximum)
      ensures !Willing(reader)
    {
    }

    method CheckConstant(c: Constant, rva: int) returns (ok: bool)
      requires rva >= 0 && |c.bytes| > 0
      modifies this`error, this`readCalls, this`requestedBytes
      ensures ok ==> ConstantOk(Ctx(), c, rva) && error == old(error)
      ensures !ok ==> !ConstantOk(Ctx(), c, rva) || Stopped(old(error))
      ensures error == old(error) || Stopped(old(error))
    {
      var at := rva + c.offset;
      if at > UNKNOWN || !Containing(image, at, |c.bytes|, ReadOnlyKind) {
        return false;
      }
      var read, bytes := Read(at, |c.bytes|);
      return read && bytes == c.bytes;
    }

    /** Reads one pointer slot of a bound owner. */
    method PointerSlot(p: Pointer, owner: int) returns (ok: bool, target: int)
      requires Ok() && PointerShapeOk(model, p)
      modifies this`error, this`readCalls, this`requestedBytes
      ensures ok ==> PointerOk(Ctx(), p, owner) && target == WordAt(image, owner + p.offset) - base && error == old(error)
      ensures !ok ==> !PointerOk(Ctx(), p, owner) || Stopped(old(error))
      ensures error == old(error) || Stopped(old(error))
    {
      var at := owner + p.offset;
      if at % 8 != 0 || at > UNKNOWN || !Containing(image, at, 8, ReadOnlyKind) {
        return false, 0;
      }
      var read, bytes := Read(at, 8);
      if !read {
        return false, 0;
      }
      var value := Le(bytes);
      if value < base || value - base >= |image.bytes| || !SymbolValid(image, model, p.target, value - base) {
        return false, 0;
      }
      return true, value - base;
    }

    /** Appends what the pointer slots of already bound read-only owners hold. */
    method CollectPointers(candidate: Candidate) returns (ok: bool, r: Candidate)
      requires Ok() && Normalized(candidate)
      modifies this`error, this`readCalls, this`requestedBytes
      ensures ok ==> PointersOk(Ctx(), Elems(candidate), |model.pointers|) && error == old(error)
      ensures ok ==> Elems(r) == Followed(Ctx(), Elems(candidate))
      ensures !ok ==> !PointersOk(Ctx(), Elems(candidate), |model.pointers|) || Stopped(old(error))
      ensures error == old(error) || Stopped(old(error))
    {
      hide WordAt, PointerOk, PointerOkFor, BoundBy, Containing;
      ghost var x, known := Ctx(), Elems(candidate);
      r := candidate;
      for k := 0 to |model.pointers|
        invariant error == old(error)
        invariant PointersOk(x, known, k)
        invariant Elems(r) == known + PointerBindings(x, known, k)
      {
        var p := model.pointers[k];
        var found, owner := Find(candidate, p.owner);
        if !found {
          PointerSkip(x, candidate, k);
        } else {
          PointerStep(x, candidate, k, owner);
          var slot, target := PointerSlot(p, owner);
          if !slot {
            PointersPrefix(x, known, k + 1, |model.pointers|);
            return false, r;
          }
          AppendElems(r, Binding(p.target, target));
          r := r + [Binding(p.target, target)];
        }
      }
      ok := true;
    }

    method FollowPointers(candidate: Candidate) returns (ok: bool, r: Candidate)
      requires Ok() && Normalized(candidate)
      modifies this`error, this`readCalls, this`requestedBytes
      ensures ok ==> FollowOk(Ctx(), Elems(candidate)) && error == old(error)
      ensures ok ==> Normalized(r) && Elems(r) == Followed(Ctx(), Elems(candidate))
      ensures !ok ==> !FollowOk(Ctx(), Elems(candidate)) || Stopped(old(error))
      ensures error == old(error) || Stopped(old(error))
    {
      ok, r := CollectPointers(candidate);
      if ok {
        ok, r := Normalize(r);
      }
    }

    // ----- matching one shape at one location -----

    /** Validates the location and compares every operand-free byte. */
    method MatchBytes(body: Body, rva: int) returns (ok: bool, bytes: seq<byte>)
      requires Ok() && BodyOk(model, body)
      modifies this`error, this`readCalls, this`requestedBytes
      ensures ok ==> BytesPresent(Ctx(), body.code, rva) && bytes == BodyBytes(Ctx(), body.code, rva) && error == old(error)
      ensures !ok ==> !BytesPresent(Ctx(), body.code, rva) || Stopped(old(error))
      ensures error == old(error) || Stopped(old(error))
    {
      bytes := [];
      if !SymbolValid(image, model, body.code.symbol, rva) {
        return false, bytes;
      }
      var read;
      read, bytes := Read(rva, |body.code.bytes|);
      if !read {
        return false, bytes;
      }
      for at := 0 to |bytes|
        invariant forall k | 0 <= k < at && InvariantByte(body.code, k) :: bytes[k] == body.code.bytes[k]
      {
        if body.exact[at] && bytes[at] != body.code.bytes[at] {
          return false, bytes;
        }
      }
      ok := true;
    }

    /** Decodes every address operand into the base RVA of its symbol. */
    method DecodeOperands(code: Template, rva: int, bytes: seq<byte>) returns (ok: bool, c: Candidate)
      requires Ok() && CodeShapeOk(model, code)
      requires BodyInside(Ctx(), code, rva) && bytes == BodyBytes(Ctx(), code, rva)
      ensures ok ==> Elems(c) == OwnBindings(Ctx(), code, rva, |code.operands|)
      ensures ok <==> forall k | 0 <= k < |code.operands| :: OperandOk(Ctx(), code.operands[k], rva, bytes)
    {
      hide OperandTarget;
      ghost var x := Ctx();
      c := [Binding(code.symbol, rva)];
      for k := 0 to |code.operands|
        invariant forall j | 0 <= j < k :: OperandOk(x, code.operands[j], rva, bytes)
        invariant Elems(c) == OwnBindings(x, code, rva, k)
      {
        var op := code.operands[k];
        var target := OperandTarget(op, rva, bytes);
        if target < 0 || target >= |image.bytes| {
          return false, c;
        }
        var operandBase := target - op.addend;
        if operandBase < 0 || operandBase > UNKNOWN || !SymbolValid(image, model, op.target, operandBase) {
          return false, c;
        }
        AppendElems(c, Binding(op.target, operandBase));
        c := c + [Binding(op.target, operandBase)];
      }
      ok := true;
    }

    method CheckConstants(c: Candidate) returns (ok: bool)
      requires Ok() && Normalized(c) && forall b | b in c :: b.rva >= 0
      modifies this`error, this`readCalls, this`requestedBytes
      ensures ok ==> ConstantsOk(Ctx(), Elems(c)) && error == old(error)
      ensures !ok ==> !ConstantsOk(Ctx(), Elems(c)) || Stopped(old(error))
      ensures error == old(error) || Stopped(old(error))
    {
      hide ConstantOk;
      ghost var x := Ctx();
      NormalizedIsFunctional(c);
      for k := 0 to |model.constants|
        invariant error == old(error)
        invariant forall j | 0 <= j < k :: ConstantOkFor(x, Elems(c), model.constants[j])
      {
        var found, rva := Find(c, model.constants[k].symbol);
        if found {
          assert Binding(model.constants[k].symbol, rva) in Elems(c);
          var same := CheckConstant(model.constants[k], rva);
          if !same {
            return false;
          }
        }
      }
      ok := true;
    }

    /** The complete match of one shape at one location. */
    method MatchBody(body: Body, rva: int) returns (ok: bool, c: Candidate)
      requires Ok() && BodyOk(model, body) && Normalized(fixed)
      modifies this`error, this`readCalls, this`requestedBytes
      ensures ok ==> IsFor(Ctx(), body.code, rva, c) && error == old(error)
      ensures !ok ==> !Present(Ctx(), body.code, rva) || Stopped(old(error))
      ensures error == old(error) || Stopped(old(error))
    {
      ghost var x := Ctx();
      var bytes;
      ok, bytes := MatchBytes(body, rva);
      if !ok { return false, []; }
      ok, c := DecodeOperands(body.code, rva, bytes);
      if !ok { return; }
      ok, c := Normalize(c);
      if !ok { return; }
      ok, c := FollowPointers(c);
      if !ok { return; }
      ok := Agrees(c, fixed);
      if !ok { return; }
      MatchedNonnegative(x, body.code, rva);
      ok := CheckConstants(c);
    }

    // ----- shared state -----

    ghost predicate Shaped()
      reads this`bodies, this`found, this`attempted, this`selected, this`domains
    {
      && Ok() && BodiesOk()
      && |bodies| == |found| == |attempted| == |selected| == |domains|
      && forall i | 0 <= i < |bodies| :: |bodies[i]| == |found[i]| == |attempted[i]| && selected[i] < |bodies[i]|
    }

    ghost predicate BodiesOk()
      reads this`bodies
    {
      |bodies| == |model.code| && forall i, b | 0 <= i < |bodies| && 0 <= b < |bodies[i]| :: ShapeOf(i, bodies[i][b])
    }

    ghost predicate ShapeOf(i: nat, body: Body)
      requires i < |bodies| == |model.code| && |bodies[i]| > 0
      reads this`bodies
    {
      && BodyOk(model, body)
      && body.code.symbol == model.code[i].symbol
      && body.discoverable == bodies[i][0].discoverable
    }

    /** The counter counts the distinct pairs of shape and location attempted. */
    ghost predicate Counted()
      reads this`attempts, this`attempted
    {
      attempts == Tally(attempted)
    }

    ghost predicate TriesCause(e: Error)
      reads this`attempts, this`attempted
    {
      e.AttemptLimit? && attempts > 16384 && Counted()
    }

    /** A shape with sixty-four candidates is present at one more place. */
    ghost predicate Overfull(e: Error, body: Body, row: seq<Candidate>, tried: set<int>, rva: int)
      requires Ok() && BodyOk(model, body)
      reads this`fixed
    {
      e.CandidateLimit? && |row| >= 64 && rva !in tried && Present(Ctx(), body.code, rva)
    }

    /** Some shape is present at more than 64 places. */
    ghost predicate Crowded()
      reads this`bodies, this`fixed
    {
      exists i, b | 0 <= i < |bodies| && 0 <= b < |bodies[i]| :: Plenty(Ctx(), bodies[i][b].code)
    }

    /** What can stop the search for candidates. */
    ghost predicate ScanCause(e: Error)
      reads this`readCalls, this`requestedBytes, this`attempts, this`attempted, this`bodies, this`fixed
    {
      ReadCause(e) || TriesCause(e) || (e.CandidateLimit? && Crowded())
    }

    /** One more location is attempted. */
    method Count(i: nat, b: nat, rva: int)
      requires i < |attempted| && b < |attempted[i]| && rva !in attempted[i][b] && Counted()
      modifies this`attempts, this`attempted
      ensures attempted == Put(old(attempted), i, b, old(attempted)[i][b] + {rva}) && attempts == old(attempts) + 1 && Counted()
    {
      TallyPut(attempted, i, b, rva);
      attempted := Put(attempted, i, b, attempted[i][b] + {rva});
      attempts := attempts + 1;
    }

    /** Attempts one shape at one location, at most once. */
    method AddCandidate(i: nat, b: nat, body: Body, rva: int) returns (ok: bool, ghost added: seq<Candidate>)
      requires Ok() && BodyOk(model, body) && Normalized(fixed) && error == NoError
      requires i < |found| && b < |found[i]| && i < |attempted| && b < |attempted[i]| && Counted()
      modifies this`error, this`readCalls, this`requestedBytes, this`attempts, this`candidateCount, this`found, this`attempted
      ensures attempted == Put(old(attempted), i, b, old(attempted)[i][b] + {rva})
      ensures found == Put(old(found), i, b, old(found)[i][b] + added)
      ensures candidateCount == old(candidateCount) + |added| && Counted()
      ensures ok <==> error == NoError
      ensures !ok ==> ReadCause(error) || TriesCause(error) || Overfull(error, body, old(found)[i][b], old(attempted)[i][b], rva)
      ensures ok ==> Added(Ctx(), body.code, old(attempted)[i][b], rva, added)
    {
      hide Tally, Present, ModelOk;
      added := [];
      PutSame(found, i, b);
      assert found[i][b] + [] == found[i][b];
      if rva in attempted[i][b] {
        PutSame(attempted, i, b);
        assert attempted[i][b] + {rva} == attempted[i][b];
        return true, [];
      }
      Count(i, b, rva);
      if attempts > 16384 {
        Fail(AttemptLimit);
        return false, [];
      }
      var matched, c := MatchBody(body, rva);
      if matched {
        if |found[i][b]| >= 64 {
          Fail(CandidateLimit);
          return false, [];
        }
        found := Put(found, i, b, found[i][b] + [c]);
        candidateCount := candidateCount + 1;
        added := [c];
      }
      ok := error == NoError;
    }

    // ----- scanning static code -----

    ghost predicate AllFound()
      requires Shaped()
      reads this`bodies, this`found, this`attempted, this`fixed, this`selected, this`domains
    {
      forall i, b | 0 <= i < |bodies| && 0 <= b < |bodies[i]| ::
        FoundFor(Ctx(), bodies[i][b].code, found[i][b], attempted[i][b])
    }

    /** The index lists every discoverable shape under the first four bytes of its seed. */
    ghost predicate SeedsOk()
      reads this`bodies, this`seeds, this`maximumSeed
    {
      && |bodies| == |model.code|
      && (forall i, b | 0 <= i < |bodies| && 0 <= b < |bodies[i]| && bodies[i][b].discoverable :: Indexed(i, b, bodies[i][b]))
      && forall k, j | k in seeds && 0 <= j < |seeds[k]| ::
           seeds[k][j].0 < |bodies| && seeds[k][j].1 < |bodies[seeds[k][j].0]| &&
           bodies[seeds[k][j].0][seeds[k][j].1].discoverable
    }

    ghost predicate Indexed(i: nat, b: nat, body: Body)
      reads this`seeds, this`maximumSeed
    {
      Listed(seeds, maximumSeed, i, b, body)
    }

    ghost predicate ScanInv()
      reads this`bodies, this`found, this`attempted, this`attempts, this`fixed, this`selected, this`domains, this`seeds, this`maximumSeed, this`error
    {
      Shaped() && SeedsOk() && AllFound() && ShortUntouched() && Normalized(fixed) && error == NoError && Counted()
    }

    ghost predicate ShortUntouched()
      requires Shaped()
      reads this`bodies, this`found, this`attempted, this`selected, this`domains
    {
      forall i, b | 0 <= i < |bodies| && 0 <= b < |bodies[i]| && !bodies[i][b].discoverable ::
        found[i][b] == [] && attempted[i][b] == {}
    }

    method Attempt(i: nat, b: nat, rva: int) returns (ok: bool)
      requires ScanInv() && i < |bodies| && b < |bodies[i]| && bodies[i][b].discoverable
      modifies this`error, this`readCalls, this`requestedBytes, this`attempts, this`candidateCount, this`found, this`attempted
      ensures ok ==> ScanInv() && attempted == Put(old(attempted), i, b, old(attempted)[i][b] + {rva})
      ensures !ok ==> ScanCause(error)
    {
      hide FoundFor, Added, Tally, Overfull, Crowded, TriesCause, ReadCause, ModelOk;
      ghost var x, body := Ctx(), bodies[i][b];
      ghost var f, t := found, attempted;
      assert ShapeOf(i, body);
      assert FoundFor(x, body.code, f[i][b], t[i][b]);
      ghost var added;
      ok, added := AddCandidate(i, b, bodies[i][b], rva);
      if ok {
        AddedFound(x, body.code, f[i][b], t[i][b], rva, added);
        StillAllFound(f, t, i, b);
      } else if Overfull(error, body, f[i][b], t[i][b], rva) {
        AttemptCrowds(i, b, f[i][b], t[i][b], rva);
      }
    }

    lemma AttemptCrowds(i: nat, b: nat, row: seq<Candidate>, tried: set<int>, rva: int)
      requires Ok() && i < |bodies| && b < |bodies[i]| && BodyOk(model, bodies[i][b])
      requires FoundFor(Ctx(), bodies[i][b].code, row, tried) && Overfull(error, bodies[i][b], row, tried, rva)
      ensures Crowded() && error.CandidateLimit?
    {
      hide FoundFor, Present, Plenty;
      Crowding(Ctx(), bodies[i][b].code, row, tried, rva);
    }

    lemma StillAllFound(f: seq<seq<seq<Candidate>>>, t: seq<seq<set<int>>>, i: nat, b: nat)
      requires Shaped() && i < |bodies| && b < |bodies[i]| && |f| == |t| == |bodies|
      requires forall j | 0 <= j < |bodies| :: |f[j]| == |t[j]| == |bodies[j]|
      requires forall j, c | 0 <= j < |bodies| && 0 <= c < |bodies[j]| :: FoundFor(Ctx(), bodies[j][c].code, f[j][c], t[j][c])
      requires forall j, c | 0 <= j < |bodies| && 0 <= c < |bodies[j]| && (j != i || c != b) ::
                 found[j][c] == f[j][c] && attempted[j][c] == t[j][c]
      requires FoundFor(Ctx(), bodies[i][b].code, found[i][b], attempted[i][b])
      ensures AllFound()
    {
      hide FoundSound, FoundComplete, Distinct;
    }

    predicate SeedAt(body: Body, a: int) {
      && 0 <= a && a + body.seedSize <= |image.bytes| && body.seedOffset + body.seedSize <= |body.code.bytes|
      && image.bytes[a..a + body.seedSize] == body.code.bytes[body.seedOffset..body.seedOffset + body.seedSize]
    }

    ghost predicate Aligned<T>(t: seq<seq<T>>)
      reads this`bodies
    {
      |t| == |bodies| && forall i | 0 <= i < |t| :: |t[i]| == |bodies[i]|
    }

    /** If this shape's seed lies at `a` before `limit`, the location it implies is among the attempts t. */
    ghost predicate Tried(t: seq<seq<set<int>>>, i: nat, b: nat, a: int, limit: nat)
      requires Aligned(t) && i < |bodies| && b < |bodies[i]|
      reads this`bodies
    {
      var body := bodies[i][b];
      body.discoverable && a + body.seedSize <= limit && SeedAt(body, a) && a >= body.seedOffset ==>
        a - body.seedOffset in t[i][b]
    }

    ghost predicate Covered(t: seq<seq<set<int>>>, lo: int, hi: int, limit: nat)
      requires Aligned(t)
      reads this`bodies
    {
      forall a, i, b | lo <= a < hi && 0 <= i < |bodies| && 0 <= b < |bodies[i]| :: Tried(t, i, b, a, limit)
    }

    /** The window holds the image bytes from `start`; every seed starting at `at` before the limit ends inside it. */
    predicate WindowOk(start: nat, bytes: seq<byte>, at: nat, limit: nat)
      reads this`maximumSeed
    {
      && start + |bytes| <= limit <= |image.bytes| && bytes == image.bytes[start..start + |bytes|]
      && at <= |bytes| && (start + |bytes| == limit || at + maximumSeed <= |bytes|)
    }

    /** Tries one indexed shape at a window position. */
    method TryShape(i: nat, b: nat, start: nat, at: nat, bytes: seq<byte>, limit: nat) returns (ok: bool)
      requires ScanInv() && WindowOk(start, bytes, at, limit)
      requires i < |bodies| && b < |bodies[i]| && bodies[i][b].discoverable
      modifies this`error, this`readCalls, this`requestedBytes, this`attempts, this`candidateCount, this`found, this`attempted
      ensures ok ==> ScanInv() && Grew(old(attempted), attempted) && Tried(attempted, i, b, start + at, limit)
      ensures !ok ==> ScanCause(error)
    {
      hide AllFound, ShapeOf, ScanCause, Counted, ModelOk, ShortUntouched;
      var body := bodies[i][b];
      assert Indexed(i, b, body);
      if at + body.seedSize > |bytes| ||
         bytes[at..at + body.seedSize] != body.code.bytes[body.seedOffset..body.seedOffset + body.seedSize]
      {
        if start + at + body.seedSize <= limit && SeedAt(body, start + at) {
          WindowSeed(body, start, at, bytes, limit);
        }
        return true;
      }
      if start + at >= body.seedOffset {
        ok := Attempt(i, b, start + at - body.seedOffset);
      } else {
        ok := true;
      }
    }

    ghost predicate ListOk(list: seq<(nat, nat)>)
      reads this`bodies
    {
      forall j | 0 <= j < |list| :: list[j].0 < |bodies| && list[j].1 < |bodies[list[j].0]|
    }

    ghost predicate TriedList(t: seq<seq<set<int>>>, list: seq<(nat, nat)>, n: nat, a: int, limit: nat)
      reads this`bodies
    {
      Aligned(t) && n <= |list| && ListOk(list) &&
      forall j | 0 <= j < n :: Tried(t, list[j].0, list[j].1, a, limit)
    }

    method TryList(list: seq<(nat, nat)>, start: nat, at: nat, bytes: seq<byte>, limit: nat) returns (ok: bool)
      requires ScanInv() && WindowOk(start, bytes, at, limit) && ListOk(list)
      requires forall j | 0 <= j < |list| :: bodies[list[j].0][list[j].1].discoverable
      modifies this`error, this`readCalls, this`requestedBytes, this`attempts, this`candidateCount, this`found, this`attempted
      ensures ok ==> ScanInv() && Grew(old(attempted), attempted) && TriedList(attempted, list, |list|, start + at, limit)
      ensures !ok ==> ScanCause(error)
    {
      hide AllFound, ShapeOf, Indexed, Tried, WindowOk, ScanCause, Counted, ModelOk, ShortUntouched;
      for j := 0 to |list|
        invariant ScanInv() && Grew(old(attempted), attempted) && TriedList(attempted, list, j, start + at, limit)
      {
        ghost var before := attempted;
        ok := TryShape(list[j].0, list[j].1, start, at, bytes, limit);
        if !ok { return; }
        StaysTried(before, attempted, list, j, start + at, limit);
      }
      ok := true;
    }

    /** Tries every shape whose seed key is at this window position. */
    method TryAddress(start: nat, at: nat, bytes: seq<byte>, limit: nat) returns (ok: bool)
      requires ScanInv() && WindowOk(start, bytes, at, limit) && at + 7 <= |bytes|
      modifies this`error, this`readCalls, this`requestedBytes, this`attempts, this`candidateCount, this`found, this`attempted
      ensures ok ==> ScanInv() && Grew(old(attempted), attempted) && Covered(attempted, start + at, start + at + 1, limit)
      ensures !ok ==> ScanCause(error)
    {
      hide AllFound, ShapeOf, Indexed, Tried, Covered, WindowOk, SeedsOk, Key, ModelOk, ShortUntouched, ScanCause, Counted;
      WindowKey(start, at, bytes, limit);
      var key := Key(bytes[at..at + 4]);
      var list := if key in seeds then seeds[key] else [];
      KeyedList(key);
      ok := TryList(list, start, at, bytes, limit);
      if ok { SeedKeyed(start + at, key, list, limit); }
    }

    lemma WindowKey(start: nat, at: nat, bytes: seq<byte>, limit: nat)
      requires WindowOk(start, bytes, at, limit) && at + 4 <= |bytes|
      ensures start + at + 4 <= |image.bytes| && bytes[at..at + 4] == image.bytes[start + at..start + at + 4]
    {
    }

    lemma KeyedList(key: nat)
      requires SeedsOk()
      ensures var list := if key in seeds then seeds[key] else [];
              ListOk(list) && forall j | 0 <= j < |list| :: bodies[list[j].0][list[j].1].discoverable
    {
      hide Indexed;
    }

    lemma StaysTried(t: seq<seq<set<int>>>, t': seq<seq<set<int>>>, list: seq<(nat, nat)>, n: nat, a: int, limit: nat)
      requires Aligned(t) && Grew(t, t') && n < |list| && ListOk(list)
      requires TriedList(t, list, n, a, limit) && Tried(t', list[n].0, list[n].1, a, limit)
      ensures Aligned(t') && TriedList(t', list, n + 1, a, limit)
    {
      hide SeedAt;
      forall j | 0 <= j < n ensures Tried(t', list[j].0, list[j].1, a, limit) {
        assert Tried(t, list[j].0, list[j].1, a, limit);
        assert t[list[j].0][list[j].1] <= t'[list[j].0][list[j].1];
      }
    }

    /** A seed that lies before the limit lies inside the window, with the same bytes. */
    lemma WindowSeed(body: Body, start: nat, at: nat, bytes: seq<byte>, limit: nat)
      requires start + |bytes| <= limit <= |image.bytes| && bytes == image.bytes[start..start + |bytes|] && at <= |bytes|
      requires start + |bytes| == limit || at + maximumSeed <= |bytes|
      requires body.seedSize <= maximumSeed && start + at + body.seedSize <= limit && SeedAt(body, start + at)
      ensures at + body.seedSize <= |bytes|
      ensures bytes[at..at + body.seedSize] == body.code.bytes[body.seedOffset..body.seedOffset + body.seedSize]
    {
      var a := start + at;
      assert bytes[at..at + body.seedSize] == image.bytes[a..a + body.seedSize];
    }

    /** Trying the shapes listed under the key at an address covers the address. */
    lemma SeedKeyed(a: nat, key: nat, list: seq<(nat, nat)>, limit: nat)
      requires ScanInv() && a + 4 <= |image.bytes| && key == Key(image.bytes[a..a + 4])
      requires list == if key in seeds then seeds[key] else []
      requires ListOk(list) && TriedList(attempted, list, |list|, a, limit)
      ensures Covered(attempted, a, a + 1, limit)
    {
      hide AllFound, BodiesOk, ShapeOf, Key, SeedAt, ModelOk, ShortUntouched, SeedKey, Counted, Listed;
      forall i, b | 0 <= i < |bodies| && 0 <= b < |bodies[i]| ensures Tried(attempted, i, b, a, limit) {
        var body := bodies[i][b];
        if body.discoverable && SeedAt(body, a) {
          assert Indexed(i, b, body);
          KeyedListed(a, key, list, i, b, body);
          var j :| 0 <= j < |list| && list[j] == (i, b);
          assert Tried(attempted, list[j].0, list[j].1, a, limit);
        }
      }
    }

    lemma KeyedListed(a: nat, key: nat, list: seq<(nat, nat)>, i: nat, b: nat, body: Body)
      requires a + 4 <= |image.bytes| && key == Key(image.bytes[a..a + 4])
      requires list == if key in seeds then seeds[key] else []
      requires Indexed(i, b, body) && SeedAt(body, a)
      ensures (i, b) in list
    {
      hide Key, SeedAt;
      SameKey(body, a);
    }

    lemma SameKey(body: Body, a: nat)
      requires SeedAt(body, a) && 7 <= body.seedSize
      ensures SeedKey(body) == Key(image.bytes[a..a + 4])
    {
      assert image.bytes[a..a + 4] == image.bytes[a..a + body.seedSize][..4];
      assert body.code.bytes[body.seedOffset..body.seedOffset + 4] ==
             body.code.bytes[body.seedOffset..body.seedOffset + body.seedSize][..4];
    }

    lemma CoveredGrows(t: seq<seq<set<int>>>, t': seq<seq<set<int>>>, lo: int, hi: int, limit: nat)
      requires Aligned(t) && Grew(t, t') && Covered(t, lo, hi, limit)
      ensures Aligned(t') && Covered(t', lo, hi, limit)
    {
      hide SeedAt;
      forall a, i, b | lo <= a < hi && 0 <= i < |bodies| && 0 <= b < |bodies[i]| ensures Tried(t', i, b, a, limit) {
        assert Tried(t, i, b, a, limit) && t[i][b] <= t'[i][b];
      }
    }

    lemma CoveredJoins(t: seq<seq<set<int>>>, lo: int, mid: int, hi: int, limit: nat)
      requires Aligned(t) && Covered(t, lo, mid, limit) && Covered(t, mid, hi, limit)
      ensures Covered(t, lo, hi, limit)
    {
      hide Tried;
    }

    /** No discoverable seed fits in the last six bytes before the limit. */
    lemma CoveredTail(lo: int, hi: int, limit: nat)
      requires ScanInv() && lo + 7 > limit
      ensures Covered(attempted, lo, hi, limit)
    {
      hide AllFound, ShapeOf, SeedAt;
      forall i, b | 0 <= i < |bodies| && 0 <= b < |bodies[i]| && bodies[i][b].discoverable ensures bodies[i][b].seedSize >= 7 {
        assert Indexed(i, b, bodies[i][b]);
      }
    }

    method ScanWindow(start: nat, bytes: seq<byte>, count: nat, limit: nat) returns (ok: bool)
      requires ScanInv() && 0 < count <= |bytes| && WindowOk(start, bytes, count - 1, limit) && maximumSeed >= 7
      modifies this`error, this`readCalls, this`requestedBytes, this`attempts, this`candidateCount, this`found, this`attempted
      ensures ok ==> ScanInv() && Grew(old(attempted), attempted) && Covered(attempted, start, start + count, limit)
      ensures !ok ==> ScanCause(error)
    {
      hide AllFound, ShapeOf, Indexed, Tried, ScanCause, Counted, ModelOk, ShortUntouched;
      var at := 0;
      while at < count && at + 7 <= |bytes|
        invariant at <= count && ScanInv() && Grew(old(attempted), attempted)
        invariant Covered(attempted, start, start + at, limit)
      {
        ghost var before := attempted;
        ok := TryAddress(start, at, bytes, limit);
        if !ok { return; }
        CoveredGrows(before, attempted, start, start + at, limit);
        CoveredJoins(attempted, start, start + at, start + at + 1, limit);
        at := at + 1;
      }
      if at < count {
        CoveredTail(start + at, start + count, limit);
        CoveredJoins(attempted, start, start + at, start + count, limit);
      }
      ok := true;
    }

    lemma CoveredEmpty(t: seq<seq<set<int>>>, lo: int, limit: nat)
      requires Aligned(t)
      ensures Covered(t, lo, lo, limit)
    {
    }

    /** One chunk, read with enough bytes after it to hold any seed that starts inside it. */
    method ScanChunk(section: Section, offset: nat) returns (ok: bool, count: nat)
      requires ScanInv() && section.rva + section.size <= |image.bytes| && maximumSeed >= 7 && offset < section.size
      modifies this`error, this`readCalls, this`requestedBytes, this`scannedBytes, this`attempts, this`candidateCount,
               this`found, this`attempted
      ensures ok ==> ScanInv() && Grew(old(attempted), attempted) && 0 < count && offset + count <= section.size
      ensures ok ==> Covered(attempted, section.rva + offset, section.rva + offset + count, section.rva + section.size)
      ensures ok ==> scannedBytes == old(scannedBytes) + count
      ensures !ok ==> ScanCause(error)
    {
      hide AllFound, ShapeOf, Indexed, Covered;
      var left := section.size - offset;
      count := if left < CHUNK then left else CHUNK;
      var size := if left < CHUNK + maximumSeed - 1 then left else CHUNK + maximumSeed - 1;
      var bytes;
      ok, bytes := Read(section.rva + offset, size);
      if !ok { return; }
      scannedBytes := scannedBytes + count;
      ok := ScanWindow(section.rva + offset, bytes, count, section.rva + section.size);
    }

    /** Overlapping chunks cover a section as one naive pass over all its addresses would. */
    method ScanSection(section: Section) returns (ok: bool)
      requires ScanInv() && section.rva + section.size <= |image.bytes| && maximumSeed >= 7
      modifies this`error, this`readCalls, this`requestedBytes, this`scannedBytes, this`attempts, this`candidateCount,
               this`found, this`attempted
      ensures ok ==> ScanInv() && Grew(old(attempted), attempted)
      ensures ok ==> Covered(attempted, section.rva, section.rva + section.size, section.rva + section.size)
      ensures ok ==> scannedBytes == old(scannedBytes) + section.size
      ensures !ok ==> ScanCause(error)
    {
      hide AllFound, ShapeOf, Indexed, Covered, ScanCause, Counted, ModelOk, ShortUntouched;
      ghost var limit := section.rva + section.size;
      var offset := 0;
      CoveredEmpty(attempted, section.rva, limit);
      while offset < section.size
        invariant offset <= section.size && ScanInv() && Grew(old(attempted), attempted)
        invariant Covered(attempted, section.rva, section.rva + offset, limit)
        invariant scannedBytes == old(scannedBytes) + offset
      {
        ghost var before := attempted;
        var count;
        ok, count := ScanChunk(section, offset);
        if !ok { return; }
        CoveredGrows(before, attempted, section.rva, section.rva + offset, limit);
        CoveredJoins(attempted, section.rva, section.rva + offset, section.rva + offset + count, limit);
        offset := offset + count;
      }
      ok := true;
    }

    ghost predicate SectionCovered(t: seq<seq<set<int>>>, s: Section)
      requires Aligned(t)
      reads this`bodies
    {
      StaticCode(s) ==> Covered(t, s.rva, s.rva + s.size, s.rva + s.size)
    }

    /** Scans every static code section: afterwards every present location of a discoverable shape has been attempted. */
    method ScanSections() returns (ok: bool)
      requires ScanInv() && maximumSeed >= 7
      modifies this`error, this`readCalls, this`requestedBytes, this`scannedBytes, this`attempts, this`candidateCount,
               this`found, this`attempted
      ensures ok ==> ScanInv() && forall k | 0 <= k < |image.sections| :: SectionCovered(attempted, image.sections[k])
      ensures !ok ==> ScanCause(error)
    {
      hide AllFound, ShapeOf, Indexed, Covered, ScanCause, Counted, ShortUntouched;
      for k := 0 to |image.sections|
        invariant ScanInv()
        invariant forall j | 0 <= j < k :: SectionCovered(attempted, image.sections[j])
      {
        var section := image.sections[k];
        if StaticCode(section) {
          ghost var before := attempted;
          ok := ScanSection(section);
          if !ok { return; }
          forall j | 0 <= j < k ensures SectionCovered(attempted, image.sections[j]) {
            var s := image.sections[j];
            assert SectionCovered(before, s);
            if StaticCode(s) { CoveredGrows(before, attempted, s.rva, s.rva + s.size, s.rva + s.size); }
          }
        }
      }
      ok := true;
    }

    /** Naive presence implies the chunked scan attempted the location. */
    lemma PresentAttempted(i: nat, b: nat, p: int)
      requires ScanInv() && forall k | 0 <= k < |image.sections| :: SectionCovered(attempted, image.sections[k])
      requires i < |bodies| && b < |bodies[i]| && bodies[i][b].discoverable
      requires BytesPresent(Ctx(), bodies[i][b].code, p)
      ensures p in attempted[i][b]
    {
      hide AllFound;
      var body := bodies[i][b];
      assert ShapeOf(i, body) && Indexed(i, b, body);
      var k :| 0 <= k < |image.sections| && StaticCode(image.sections[k]) &&
               Inside(image.sections[k], p, model.symbols[body.code.symbol].extent);
      var s := image.sections[k];
      SeedPresent(body, p);
      assert SectionCovered(attempted, s);
      assert Tried(attempted, i, b, p + body.seedOffset, s.rva + s.size);
    }

    lemma SeedPresent(body: Body, p: int)
      requires Ok() && BodyOk(model, body) && BytesPresent(Ctx(), body.code, p)
      ensures SeedAt(body, p + body.seedOffset)
    {
      var bytes := BodyBytes(Ctx(), body.code, p);
      forall at | body.seedOffset <= at < body.seedOffset + body.seedSize ensures image.bytes[p + at] == body.code.bytes[at] {
        assert body.exact[at] && InvariantByte(body.code, at);
        assert bytes[at] == image.bytes[p + at];
      }
    }

    // ----- adopting the first present shape -----

    /** Chunked, seed-indexed scanning finds what trying every shape at every address would. */
    lemma ScanIsNaive(i: nat)
      requires ScanInv() && forall k | 0 <= k < |image.sections| :: SectionCovered(attempted, image.sections[k])
      requires i < |bodies| && |bodies[i]| > 0 && bodies[i][0].discoverable
      ensures RowExact(Ctx(), bodies[i], found[i])
    {
      hide AllFound, SectionCovered;
      forall b | 0 <= b < |bodies[i]|
        ensures BodyOk(model, bodies[i][b]) && ExactlyFound(Ctx(), bodies[i][b].code, found[i][b])
      {
        assert ShapeOf(i, bodies[i][b]);
        ShapeIsNaive(i, b);
      }
    }

    lemma ShapeIsNaive(i: nat, b: nat)
      requires ScanInv() && forall k | 0 <= k < |image.sections| :: SectionCovered(attempted, image.sections[k])
      requires i < |bodies| && b < |bodies[i]| && bodies[i][b].discoverable
      ensures ExactlyFound(Ctx(), bodies[i][b].code, found[i][b])
    {
      var code := bodies[i][b].code;
      assert ShapeOf(i, bodies[i][b]);
      assert FoundFor(Ctx(), code, found[i][b], attempted[i][b]);
      forall p | Present(Ctx(), code, p) ensures p in attempted[i][b] {
        PresentAttempted(i, b, p);
      }
      FoundIsExact(Ctx(), code, found[i][b], attempted[i][b]);
    }

    /** Some template has no shape anywhere in the image. */
    ghost predicate SomeAbsent()
      reads this`bodies, this`fixed
    {
      exists i | 0 <= i < |bodies| :: AllNowhere(Ctx(), bodies[i])
    }

    lemma AbsentAt(i: nat)
      requires i < |bodies| && AllNowhere(Ctx(), bodies[i])
      ensures SomeAbsent()
    {
      hide AllNowhere;
    }

    /** Moves the first nonempty found list of a discoverable template into its domain. */
    method SelectShape(i: nat) returns (ok: bool)
      requires Shaped() && error == NoError && i < |bodies| && RowExact(Ctx(), bodies[i], found[i])
      modifies this`error, this`found, this`selected, this`domains
      ensures Shaped() && forall j | 0 <= j < |bodies| && j != i :: found[j] == old(found)[j] && domains[j] == old(domains)[j] &&
                                                                    selected[j] == old(selected)[j]
      ensures ok ==> ShapesOk(Ctx(), bodies[i]) && Settled(Ctx(), bodies[i], selected[i], domains[i]) && error == NoError
      ensures !ok ==> error == NotFound && AllNowhere(Ctx(), bodies[i])
    {
      hide ExactlyFound, BodyOk, ShapeOf;
      var b := FirstNonempty(found[i]);
      if b == |found[i]| {
        EmptyRows(Ctx(), bodies[i], found[i], b);
        Fail(NotFound);
        return false;
      }
      EmptyRows(Ctx(), bodies[i], found[i], b);
      selected := selected[i := b];
      domains := domains[i := found[i][b]];
      found := Put(found, i, b, []);
      ok := true;
    }

    static method FirstNonempty(row: seq<seq<Candidate>>) returns (b: nat)
      ensures b <= |row| && (forall k | 0 <= k < b :: row[k] == []) && (b < |row| ==> row[b] != [])
    {
      b := 0;
      while b < |row| && row[b] == []
        invariant b <= |row| && forall k | 0 <= k < b :: row[k] == []
      {
        b := b + 1;
      }
    }

    // ----- inferring short templates -----

    ghost predicate Short(i: nat)
      requires i < |bodies| && |bodies[i]| > 0
      reads this`bodies
    {
      !bodies[i][0].discoverable
    }

    ghost predicate InferInv()
      reads this`bodies, this`found, this`attempted, this`attempts, this`fixed, this`selected, this`domains, this`visited, this`error
    {
      && Shaped() && |visited| == |bodies| && Normalized(fixed) && error == NoError && Counted()
      && forall i | 0 <= i < |bodies| ::
           RowInv(Ctx(), bodies[i], selected[i], domains[i], found[i], attempted[i], visited[i])
    }

    /** Tries one shape of a short template at one location; a candidate found there is moved out of `found`. */
    method TakeCandidate(i: nat, b: nat, rva: int, ghost offered: set<int>) returns (ok: bool, taken: seq<Candidate>)
      requires Ok() && Normalized(fixed) && error == NoError && Aligned(found) && Aligned(attempted)
      requires i < |bodies| && b < |bodies[i]| && BodyOk(model, bodies[i][b]) && found[i][b] == [] && attempted[i][b] <= offered && Counted()
      modifies this`error, this`readCalls, this`requestedBytes, this`attempts, this`candidateCount, this`found, this`attempted
      ensures (if ok then error == NoError else ScanCause(error)) && Counted()
      ensures ok ==> found == old(found) && attempted == Put(old(attempted), i, b, old(attempted)[i][b] + {rva})
      ensures ok ==> candidateCount == old(candidateCount) + |taken|
      ensures ok ==> if taken == [] then NotNew(Ctx(), bodies[i][b].code, offered, rva)
                     else |taken| == 1 && IsFor(Ctx(), bodies[i][b].code, rva, taken[0])
    {
      hide IsFor, Present, ModelOk, CodeShapeOk, Normalized;
      ghost var added;
      taken := [];
      PutSame(found, i, b);
      ok, added := AddCandidate(i, b, bodies[i][b], rva);
      if !ok { return; }
      taken := found[i][b];
      assert taken == added;
      PutPut(old(found), i, b, added, []);
      found := Put(found, i, b, []);
    }

    /** Tries the shapes of a short template in order at one location and stops at the first that is present there;
        once a shape is settled only that one is tried. */
    method FirstPresent(i: nat, rva: int) returns (ok: bool, b: nat, taken: seq<Candidate>, ghost c: Candidate)
      requires InferInv() && i < |bodies| && Short(i)
      modifies this`error, this`readCalls, this`requestedBytes, this`attempts, this`candidateCount, this`found, this`attempted
      ensures (if ok then error == NoError && b <= |bodies[i]| else ScanCause(error)) && Counted()
      ensures ok ==> Aligned(attempted) && (forall j | 0 <= j < |bodies| && j != i :: attempted[j] == old(attempted)[j])
      ensures ok ==> forall k | 0 <= k < |bodies[i]| :: attempted[i][k] <= visited[i] + {rva}
      ensures ok ==> found == old(found)
      ensures ok && b < |bodies[i]| ==> taken == [c] && candidateCount == old(candidateCount) + 1
      ensures ok && b < |bodies[i]| ==> IsFor(Ctx(), bodies[i][b].code, rva, c) && (domains[i] == [] || b == selected[i])
      ensures ok && b == |bodies[i]| ==> candidateCount == old(candidateCount)
      ensures ok && b == |bodies[i]| ==> forall k | 0 <= k < b && (domains[i] == [] || k == selected[i]) ::
                                           NotNew(Ctx(), bodies[i][k].code, visited[i], rva)
    {
      hide RowInv, ShapeOf, Present, IsFor, CodeShapeOk, Inferred, ScanCause, Tally;
      ghost var x, shapes, offered := Ctx(), bodies[i], visited[i];
      ShortRow(x, shapes, selected[i], domains[i], found[i], attempted[i], offered);
      b := 0; taken, c := [], [];
      while b < |bodies[i]|
        invariant b <= |bodies[i]| && error == NoError && candidateCount == old(candidateCount) && found == old(found) && Counted()
        invariant Aligned(attempted) && forall j | 0 <= j < |bodies| && j != i :: attempted[j] == old(attempted)[j]
        invariant forall k | 0 <= k < |bodies[i]| :: attempted[i][k] <= offered + {rva} && (k >= b ==> attempted[i][k] <= offered)
        invariant forall k | 0 <= k < b && (domains[i] == [] || k == selected[i]) :: NotNew(x, shapes[k].code, offered, rva)
      {
        if domains[i] != [] && b != selected[i] {
          b := b + 1;
          continue;
        }
        ok, taken := TakeCandidate(i, b, rva, offered);
        if !ok { return; }
        if taken != [] {
          c := taken[0];
          return;
        }
        b := b + 1;
      }
      ok := true;
    }

    /** Offers one location to a short template and adopts the first shape present there. */
    method AdoptFirstPresent(i: nat, rva: int) returns (ok: bool)
      requires InferInv() && i < |bodies| && Short(i)
      modifies this`error, this`readCalls, this`requestedBytes, this`attempts, this`candidateCount,
               this`found, this`attempted, this`selected, this`domains, this`visited
      ensures ok ==> InferInv() && visited == old(visited)[i := old(visited)[i] + {rva}]
      ensures ok ==> Extends(old(domains), domains, i) && Keeps(old(selected), selected, i)
      ensures ok && old(domains)[i] != [] ==> selected == old(selected)
      ensures ok ==> candidateCount >= old(candidateCount) && candidateCount - old(candidateCount) == |domains[i]| - |old(domains)[i]|
      ensures ok && candidateCount == old(candidateCount) ==> domains == old(domains) && selected == old(selected)
      ensures !ok ==> ScanCause(error)
    {
      hide RowInv, ShapeOf, Present, IsFor, CodeShapeOk, Inferred, NotNew, ModelOk, ScanCause, Counted;
      ghost var x, shapes, sel, domain, offered := Ctx(), bodies[i], selected[i], domains[i], visited[i];
      ShortRow(x, shapes, sel, domain, found[i], attempted[i], offered);
      var b, taken;
      ghost var c;
      ok, b, taken, c := FirstPresent(i, rva);
      if !ok { return; }
      visited := visited[i := visited[i] + {rva}];
      if b == |bodies[i]| {
        NoneAdoptedRow(x, shapes, sel, domain, found[i], attempted[i], offered, rva);
      } else {
        OneAdoptedRow(x, shapes, sel, domain, found[i], attempted[i], offered, rva, b, c);
        selected := selected[i := b];
        domains := domains[i := domains[i] + taken];
      }
    }

    ghost predicate TemplatesIndexed()
      reads this`templateFor
    {
      && |templateFor| == |model.symbols| && |model.code| <= 64
      && (forall s | 0 <= s < |templateFor| && templateFor[s] != UNKNOWN ::
            0 <= templateFor[s] < |model.code| && model.code[templateFor[s]].symbol == s)
      && (forall i | 0 <= i < |model.code| :: model.code[i].symbol < |templateFor| && templateFor[model.code[i].symbol] == i)
    }

    ghost predicate Reach()
      requires Shaped()
      reads this`bodies, this`found, this`attempted, this`fixed, this`selected, this`domains, this`order
    {
      ReachInv(Ctx(), Codes(bodies, selected), Scanned(bodies), domains, order)
    }

    ghost predicate GraphInv()
      reads this`bodies, this`found, this`attempted, this`attempts, this`fixed, this`selected, this`domains, this`visited, this`error,
            this`order, this`templateFor
    {
      InferInv() && Reach() && TemplatesIndexed()
    }

    ghost predicate Fresh()
      reads this`domains, this`visited, this`order
    {
      && order == [] && |domains| == |visited|
      && (forall i | 0 <= i < |domains| :: domains[i] == []) && forall i | 0 <= i < |visited| :: visited[i] == {}
    }

    /** The whole scan, then the first present shape of every discoverable template. */
    method Scan() returns (ok: bool)
      requires ScanInv() && TemplatesIndexed() && Fresh() && |visited| == |bodies| && maximumSeed >= 7
      modifies this`error, this`readCalls, this`requestedBytes, this`scannedBytes, this`attempts, this`candidateCount,
               this`found, this`attempted, this`selected, this`domains, this`order
      ensures ok ==> GraphInv()
      ensures !ok ==> (error == NotFound && SomeAbsent()) || ScanCause(error)
    {
      hide AllFound, ShapeOf, SeedsOk, SectionCovered, TemplatesIndexed;
      ok := ScanSections();
      if !ok { return; }
      ghost var rows := found;
      forall i | 0 <= i < |bodies| && !Short(i) ensures RowExact(Ctx(), bodies[i], found[i]) {
        ScanIsNaive(i);
      }
      ok := SelectAll();
    }

    method SelectAll() returns (ok: bool)
      requires Shaped() && TemplatesIndexed() && ShortUntouched() && Fresh() && |visited| == |bodies|
      requires Normalized(fixed) && error == NoError && Counted()
      requires forall i | 0 <= i < |bodies| && !Short(i) :: RowExact(Ctx(), bodies[i], found[i])
      modifies this`error, this`found, this`selected, this`domains, this`order
      ensures ok ==> GraphInv()
      ensures !ok ==> error == NotFound && SomeAbsent()
    {
      hide RowExact, RowInv, TemplatesIndexed, ShapeOf, ModelOk, EmptyRow, ReachInv, Reached, Counted, SomeAbsent, AllNowhere;
      ghost var rows := found;
      forall i | 0 <= i < |bodies| && Short(i) ensures EmptyRow(rows[i], attempted[i]) {
        ShortRowEmpty(i);
      }
      for i := 0 to |bodies|
        invariant Shaped() && error == NoError
        invariant forall j | i <= j < |bodies| :: found[j] == rows[j] && domains[j] == []
        invariant RowsDone(Ctx(), bodies, selected, domains, found, attempted, visited, i)
        invariant forall k | 0 <= k < |order| :: order[k] < i && !Short(order[k]) && domains[order[k]] != []
        invariant forall j | 0 <= j < i && domains[j] != [] :: j in order
      {
        ghost var s, d, f := selected, domains, found;
        ok := SelectRow(i);
        if !ok {
          AbsentAt(i);
          return;
        }
        OneMoreRow(Ctx(), bodies, s, selected, d, domains, f, found, attempted, visited, i);
        if !Short(i) { AppendMember(order, i); }
      }
      ScannedReach();
      ok := true;
    }

    /** Scanned templates need no reaching. */
    lemma ScannedReach()
      requires Shaped() && forall k | 0 <= k < |order| :: order[k] < |bodies| && !Short(order[k]) && domains[order[k]] != []
      requires forall j | 0 <= j < |bodies| && domains[j] != [] :: j in order
      ensures Reach()
    {
      hide ShapeOf, Binds;
    }

    lemma ShortRowEmpty(i: nat)
      requires Shaped() && ShortUntouched() && i < |bodies| && Short(i)
      ensures EmptyRow(found[i], attempted[i])
    {
      assert forall b | 0 <= b < |bodies[i]| :: ShapeOf(i, bodies[i][b]);
    }

    method SelectRow(i: nat) returns (ok: bool)
      requires Shaped() && i < |bodies| && domains[i] == [] && |visited| == |bodies| && visited[i] == {}
      requires Normalized(fixed) && error == NoError
      requires Short(i) ==> EmptyRow(found[i], attempted[i])
      requires !Short(i) ==> RowExact(Ctx(), bodies[i], found[i])
      modifies this`error, this`found, this`selected, this`domains, this`order
      ensures Shaped() && forall j | 0 <= j < |bodies| && j != i :: found[j] == old(found)[j] && domains[j] == old(domains)[j] &&
                                                                    selected[j] == old(selected)[j]
      ensures ok ==> RowInv(Ctx(), bodies[i], selected[i], domains[i], found[i], attempted[i], visited[i]) && error == NoError
      ensures ok ==> if Short(i) then domains[i] == [] && order == old(order) && found == old(found)
                     else domains[i] != [] && order == old(order) + [i]
      ensures !ok ==> error == NotFound && AllNowhere(Ctx(), bodies[i])
    {
      hide RowExact, RowInv, ShapeOf, Settled;
      RowShapesOk(i);
      if bodies[i][0].discoverable {
        ok := SelectShape(i);
        if !ok { return; }
        SettledRow(Ctx(), bodies[i], selected[i], domains[i], found[i], attempted[i], visited[i]);
        order := order + [i];
      } else {
        UntouchedRow(Ctx(), bodies[i], selected[i], found[i], attempted[i]);
        ok := true;
      }
    }

    lemma RowShapesOk(i: nat)
      requires Shaped() && i < |bodies|
      ensures ShapesOk(Ctx(), bodies[i])
    {
      assert forall b | 0 <= b < |bodies[i]| :: ShapeOf(i, bodies[i][b]);
    }

    // ----- the inference passes -----

    ghost predicate Offered(b: Binding)
      requires Shaped() && TemplatesIndexed() && |visited| == |bodies|
      reads this`bodies, this`found, this`attempted, this`selected, this`domains, this`visited, this`templateFor
    {
      Handled(templateFor, Scanned(bodies), visited, b)
    }

    method AdoptReached(target: nat, rva: int) returns (ok: bool)
      requires InferInv() && Reach() && target < |bodies| && Short(target)
      requires Reached(Ctx(), Codes(bodies, selected), Scanned(bodies), order + [target], |order|)
      modifies this`error, this`readCalls, this`requestedBytes, this`attempts, this`candidateCount,
               this`found, this`attempted, this`selected, this`domains, this`visited, this`order
      ensures ok ==> InferInv() && Reach() && visited == old(visited)[target := old(visited)[target] + {rva}]
      ensures ok ==> Step(old(domains), old(selected), old(visited), old(candidateCount), domains, selected, visited, candidateCount)
      ensures ok ==> old(order) <= order
      ensures !ok ==> ScanCause(error)
    {
      hide RowInv, ShapeOf, ModelOk, Present, Binds, ReachInv, Reached, Step, ScanCause, Counted;
      ghost var codes, sel, doms, offers, count := Codes(bodies, selected), selected, domains, visited, candidateCount;
      ok := AdoptFirstPresent(target, rva);
      if !ok { return; }
      AdoptIsStep(doms, sel, offers, count, domains, selected, candidateCount, target, rva);
      ReachExtends(Ctx(), codes, Codes(bodies, selected), Scanned(bodies), doms, domains, order, target);
      order := if doms[target] == [] && domains[target] != [] then order + [target] else order;
    }

    /** Offers the location a binding names to its short template. */
    method Offer(b: Binding) returns (ok: bool)
      requires GraphInv() && b.symbol < |model.symbols| && Justified(Ctx(), Codes(bodies, selected), order, b)
      modifies this`error, this`readCalls, this`requestedBytes, this`attempts, this`candidateCount,
               this`found, this`attempted, this`selected, this`domains, this`visited, this`order
      ensures ok ==> GraphInv() && Offered(b)
      ensures ok ==> Step(old(domains), old(selected), old(visited), old(candidateCount), domains, selected, visited, candidateCount)
      ensures ok ==> old(order) <= order
      ensures !ok ==> ScanCause(error)
    {
      hide RowInv, ShapeOf, ModelOk, Binds, ReachInv, Reached, ScanCause, Counted;
      var target := templateFor[b.symbol];
      if target == UNKNOWN || bodies[target][0].discoverable {
        return true;
      }
      ReachedBy(b, target);
      ok := AdoptReached(target, b.rva);
    }

    lemma ReachedBy(b: Binding, target: nat)
      requires GraphInv() && b.symbol < |model.symbols| && Justified(Ctx(), Codes(bodies, selected), order, b) && target == templateFor[b.symbol] != UNKNOWN
      ensures Reached(Ctx(), Codes(bodies, selected), Scanned(bodies), order + [target], |order|)
    {
      hide RowInv, ShapeOf, Present, Binds;
      if b in fixed {
        assert b in Ctx().fixed;
      } else {
        var j :| 0 <= j < |order| && order[j] < |bodies| && Binds(Ctx(), Codes(bodies, selected)[order[j]], b.symbol);
        assert (order + [target])[j] == order[j];
      }
    }

    ghost predicate CandidateOffered(c: Candidate)
      requires Shaped() && TemplatesIndexed() && |visited| == |bodies|
      reads this`bodies, this`found, this`attempted, this`selected, this`domains, this`visited, this`templateFor
    {
      HandledAll(templateFor, Scanned(bodies), visited, c, |c|)
    }

    method OfferAll(c: Candidate) returns (ok: bool)
      requires GraphInv() && AllJustified(Ctx(), Codes(bodies, selected), order, c)
      modifies this`error, this`readCalls, this`requestedBytes, this`attempts, this`candidateCount,
               this`found, this`attempted, this`selected, this`domains, this`visited, this`order
      ensures ok ==> GraphInv() && CandidateOffered(c)
      ensures ok ==> Step(old(domains), old(selected), old(visited), old(candidateCount), domains, selected, visited, candidateCount)
      ensures ok ==> old(order) <= order
      ensures !ok ==> ScanCause(error)
    {
      hide RowInv, ShapeOf, ModelOk, AllJustified, Reached, HandledAll, Step, Handled, ScanCause, Counted;
      ghost var d0, s0, v0, n0 := domains, selected, visited, candidateCount;
      NothingOffered(templateFor, Scanned(bodies), d0, s0, v0, n0, c);
      for n := 0 to |c|
        invariant GraphInv() && old(order) <= order
        invariant AllJustified(Ctx(), Codes(bodies, selected), order, c)
        invariant Step(d0, s0, v0, n0, domains, selected, visited, candidateCount)
        invariant HandledAll(templateFor, Scanned(bodies), visited, c, n)
      {
        ghost var d, s, v, m, o := domains, selected, visited, candidateCount, order;
        FirstJustified(Ctx(), Codes(bodies, selected), order, c, n);
        ok := Offer(c[n]);
        if !ok { return; }
        OneMoreOffered(templateFor, Scanned(bodies), v, visited, c, n, d, s, m, domains, selected, candidateCount);
        StepTrans(d0, s0, v0, n0, d, s, v, m, domains, selected, visited, candidateCount);
        StillJustified(Ctx(), bodies, d, s, selected, o, order, c);
      }
      ok := true;
    }

    lemma DomainJustified(i: nat)
      requires GraphInv() && i < |bodies|
      ensures EachJustified(Ctx(), Codes(bodies, selected), order, domains[i])
    {
      hide ModelOk, Binds, DomainSound, RowInv;
      var x, codes := Ctx(), Codes(bodies, selected);
      RowSound(x, bodies[i], selected[i], domains[i], found[i], attempted[i], visited[i]);
      forall c: Candidate, k | c in domains[i] && 0 <= k < |c|
        ensures c[k].symbol < |model.symbols| && Justified(x, codes, order, c[k])
      {
        SoundBinds(x, codes[i], domains[i], c, c[k]);
        var j :| 0 <= j < |order| && order[j] == i;
        assert Binds(x, codes[order[j]], c[k].symbol);
      }
    }

    /** The state since `since`, with the first n candidates offered. */
    ghost predicate Offering(since: Inference, start: seq<nat>, candidates: seq<Candidate>, n: nat)
      reads this`bodies, this`found, this`attempted, this`attempts, this`fixed, this`selected, this`domains, this`visited, this`error,
            this`order, this`templateFor, this`candidateCount
    {
      && GraphInv() && start <= order && n <= |candidates|
      && EachJustified(Ctx(), Codes(bodies, selected), order, candidates)
      && |since.domains| == |since.selected| == |since.visited| == |bodies|
      && Step(since.domains, since.selected, since.visited, since.count, domains, selected, visited, candidateCount)
      && DomainHandled(templateFor, Scanned(bodies), visited, candidates, n)
    }

    /** Offers everything the candidates of one template's domain name; the domain is copied first, as offers may grow it. */
    method OfferDomain(i: nat) returns (ok: bool)
      requires GraphInv() && i < |bodies|
      modifies this`error, this`readCalls, this`requestedBytes, this`attempts, this`candidateCount,
               this`found, this`attempted, this`selected, this`domains, this`visited, this`order
      ensures ok ==> Offering(Inference(old(domains), old(selected), old(visited), old(candidateCount)), old(order),
                              old(domains)[i], |old(domains)[i]|)
      ensures !ok ==> ScanCause(error)
    {
      hide RowInv, ShapeOf, ModelOk, EachJustified, Reached, ReachInv, Binds, Step, DomainHandled;
      ghost var since := Inference(domains, selected, visited, candidateCount);
      var candidates := domains[i];
      DomainJustified(i);
      NoneHandled(templateFor, Scanned(bodies), domains, selected, visited, candidateCount, candidates);
      for n := 0 to |candidates|
        invariant Offering(since, old(order), candidates, n)
      {
        hide Offering;
        ok := OfferNext(since, old(order), candidates, n);
        if !ok { return; }
      }
      ok := true;
    }

    method OfferNext(ghost since: Inference, ghost start: seq<nat>, candidates: seq<Candidate>, n: nat) returns (ok: bool)
      requires Offering(since, start, candidates, n) && n < |candidates|
      modifies this`error, this`readCalls, this`requestedBytes, this`attempts, this`candidateCount,
               this`found, this`attempted, this`selected, this`domains, this`visited, this`order
      ensures ok ==> Offering(since, start, candidates, n + 1)
      ensures !ok ==> ScanCause(error)
    {
      hide RowInv, ShapeOf, ModelOk, AllJustified, EachJustified, Reached, HandledAll, Binds, Step, DomainHandled;
      ghost var d, s, v, m, o := domains, selected, visited, candidateCount, order;
      OneJustified(Ctx(), Codes(bodies, selected), order, candidates, n);
      ok := OfferAll(candidates[n]);
      if !ok { return; }
      StepTrans(since.domains, since.selected, since.visited, since.count, d, s, v, m, domains, selected, visited, candidateCount);
      OneMoreHandled(templateFor, Scanned(bodies), v, visited, candidates, n, d, s, m, domains, selected, candidateCount);
      AllStillJustified(Ctx(), bodies, d, s, selected, o, order, candidates);
    }

    /** One pass over every domain; if the candidate count did not move, everything named has been offered. */
    method InferPass() returns (ok: bool)
      requires GraphInv()
      modifies this`error, this`readCalls, this`requestedBytes, this`attempts, this`candidateCount,
               this`found, this`attempted, this`selected, this`domains, this`visited, this`order
      ensures ok ==> GraphInv() && candidateCount >= old(candidateCount) && Grown(old(visited), visited)
      ensures ok ==> Total(domains) - Total(old(domains)) == candidateCount - old(candidateCount)
      ensures ok && candidateCount == old(candidateCount) ==> Closed(templateFor, Scanned(bodies), visited, domains, |domains|)
      ensures !ok ==> ScanCause(error)
    {
      hide RowInv, ShapeOf, ModelOk, ReachInv, DomainHandled, Total, ScanCause, Counted, EachJustified;
      ghost var d0, s0, v0, n0 := domains, selected, visited, candidateCount;
      for i := 0 to |bodies|
        invariant GraphInv()
        invariant Step(d0, s0, v0, n0, domains, selected, visited, candidateCount)
        invariant candidateCount == n0 ==> Closed(templateFor, Scanned(bodies), visited, d0, i)
      {
        ghost var d, s, v, m := domains, selected, visited, candidateCount;
        ok := OfferDomain(i);
        if !ok { return; }
        StepTrans(d0, s0, v0, n0, d, s, v, m, domains, selected, visited, candidateCount);
        if candidateCount == n0 { StillClosed(templateFor, Scanned(bodies), v, visited, d0, i); }
      }
      ok := true;
    }

    /** Every location the roots name has been offered. */
    ghost predicate RootsOffered()
      reads this`bodies, this`found, this`attempted, this`attempts, this`fixed, this`selected, this`domains, this`visited, this`error,
            this`order, this`templateFor
    {
      GraphInv() && CandidateOffered(fixed)
    }

    /** So has every location any candidate names. */
    ghost predicate Saturated()
      reads this`bodies, this`found, this`attempted, this`attempts, this`fixed, this`selected, this`domains, this`visited, this`error,
            this`order, this`templateFor
    {
      RootsOffered() && Closed(templateFor, Scanned(bodies), visited, domains, |domains|)
    }

    /** Fixed bindings, then passes until nothing new is found; every template must have been reached. */
    method Infer() returns (ok: bool)
      requires GraphInv() && forall k | 0 <= k < |fixed| :: fixed[k].symbol < |model.symbols|
      modifies this`error, this`readCalls, this`requestedBytes, this`attempts, this`candidateCount,
               this`found, this`attempted, this`selected, this`domains, this`visited, this`order
      ensures ok ==> Saturated() && forall i | 0 <= i < |domains| :: domains[i] != []
      ensures !ok ==> InferCause(error)
    {
      hide Saturated, RootsOffered, GraphInv, Total, ScanCause, Starved;
      ok := OfferRoots();
      if !ok { return; }
      var passes, still := 0, false;
      while passes <= |bodies| && !still
        invariant RootsOffered() && error == NoError
        invariant (still ==> Saturated()) && (!still ==> Total(domains) >= passes)
      {
        ok, still := InferRound();
        if !ok { return; }
        passes := passes + 1;
      }
      Sized();
      if !still {
        Fail(InferenceLimit);
        return false;
      }
      ok := AllReached();
      if !ok {
        ghost var i :| 0 <= i < |domains| && domains[i] == [];
        StarvedAt(i);
        Fail(Unresolved);
      }
    }

    /** Besides the search, inference stops when it keeps finding candidates, more than there are templates, or when
        a template is left without one. */
    ghost predicate InferCause(e: Error)
      reads this`readCalls, this`requestedBytes, this`attempts, this`attempted, this`bodies, this`fixed, this`found, this`selected,
            this`domains, this`visited, this`templateFor
    {
      ScanCause(e) || (e.InferenceLimit? && Total(domains) > |model.code|) || (e.Unresolved? && Starved())
    }

    /** Some short template has no shape at any location that a root or a candidate names for it. */
    ghost predicate Starved()
      reads this`bodies, this`fixed, this`found, this`attempted, this`selected, this`domains, this`visited, this`templateFor
    {
      && Shaped() && TemplatesIndexed() && |visited| == |bodies| && CandidateOffered(fixed)
      && Closed(templateFor, Scanned(bodies), visited, domains, |domains|)
      && exists i | 0 <= i < |bodies| :: Hungry(i)
    }

    ghost predicate Hungry(i: nat)
      requires Shaped() && |visited| == |bodies| && i < |bodies|
      reads this`bodies, this`fixed, this`found, this`attempted, this`selected, this`domains, this`visited
    {
      Short(i) && domains[i] == [] && ShapesOk(Ctx(), bodies[i]) &&
      forall b | 0 <= b < |bodies[i]| :: Absent(Ctx(), bodies[i][b].code, visited[i])
    }

    lemma StarvedAt(i: nat)
      requires Saturated() && i < |domains| && domains[i] == []
      ensures Starved()
    {
      hide ShapeOf, Closed, HandledAll, ReachInv, Present;
      assert RowInv(Ctx(), bodies[i], selected[i], domains[i], found[i], attempted[i], visited[i]);
      assert Hungry(i);
    }

    lemma Sized()
      requires RootsOffered()
      ensures |bodies| == |domains| == |model.code|
    {
    }

    method OfferRoots() returns (ok: bool)
      requires GraphInv() && forall k | 0 <= k < |fixed| :: fixed[k].symbol < |model.symbols|
      modifies this`error, this`readCalls, this`requestedBytes, this`attempts, this`candidateCount,
               this`found, this`attempted, this`selected, this`domains, this`visited, this`order
      ensures ok ==> RootsOffered() && error == NoError
      ensures !ok ==> ScanCause(error)
    {
      hide RowInv, ShapeOf, ModelOk, ReachInv, HandledAll, AllJustified;
      FixedJustified();
      ok := OfferAll(fixed);
    }

    /** One pass; tells whether it found nothing. */
    method InferRound() returns (ok: bool, still: bool)
      requires RootsOffered()
      modifies this`error, this`readCalls, this`requestedBytes, this`attempts, this`candidateCount,
               this`found, this`attempted, this`selected, this`domains, this`visited, this`order
      ensures ok ==> RootsOffered() && error == NoError && (still ==> Saturated()) && (!still ==> Total(domains) > Total(old(domains)))
      ensures !ok ==> ScanCause(error)
    {
      hide RowInv, ShapeOf, ModelOk, ReachInv, Closed, Binds, Handled, HandledAll, AllJustified;
      var before := candidateCount;
      ghost var offers := visited;
      ok := InferPass();
      still := candidateCount == before;
      if ok { StillHandledAll(templateFor, Scanned(bodies), offers, visited, fixed); }
    }

    lemma FixedJustified()
      requires GraphInv() && forall k | 0 <= k < |fixed| :: fixed[k].symbol < |model.symbols|
      ensures AllJustified(Ctx(), Codes(bodies, selected), order, fixed)
    {
      hide RowInv, ShapeOf, Binds, Reached;
      assert forall k | 0 <= k < |fixed| :: fixed[k] in Ctx().fixed;
    }

    method AllReached() returns (all: bool)
      ensures all <==> forall i | 0 <= i < |domains| :: domains[i] != []
    {
      for i := 0 to |domains|
        invariant forall j | 0 <= j < i :: domains[j] != []
      {
        if domains[i] == [] { return false; }
      }
      all := true;
    }

    // ----- every consistent assignment survives inference -----

    /** In order of reaching, every template's domain holds the candidate a consistent assignment needs. */
    lemma {:induction false} ReachedChoice(rvas: seq<int>, k: nat)
      requires GraphInv() && CandidateOffered(fixed) && Closed(templateFor, Scanned(bodies), visited, domains, |domains|)
      requires k < |order| && order[k] < |bodies| && Consistent(Ctx(), Codes(bodies, selected), rvas)
      ensures Held(rvas, order[k])
      decreases k
    {
      hide RowInv, ShapeOf, Present, Closed, HandledAll, Binds, FollowOk;
      var x, codes, i := Ctx(), Codes(bodies, selected), order[k];
      var symbol := model.code[i].symbol;
      assert ShapeAt(x, codes[i], rvas);
      AdoptedSymbol(i);
      assert Reached(x, codes, Scanned(bodies), order, k);
      if Scanned(bodies)[i] {
        ScannedHolds(x, bodies[i], selected[i], domains[i], found[i], attempted[i], visited[i], rvas[codes[i].symbol]);
      } else {
        if b :| b in x.fixed && b.symbol == symbol {
          FixedOffered(rvas, i, b);
        } else {
          var j :| 0 <= j < k && Binds(x, codes[order[j]], symbol);
          ReachedChoice(rvas, j);
          NamedOffered(rvas, order[j], i);
        }
        OfferedHolds(x, bodies[i], selected[i], domains[i], found[i], attempted[i], visited[i], rvas[codes[i].symbol]);
      }
    }

    lemma AdoptedSymbol(i: nat)
      requires Shaped() && i < |bodies|
      ensures Codes(bodies, selected)[i] == bodies[i][selected[i]].code
      ensures CodeShapeOk(model, bodies[i][selected[i]].code) && bodies[i][selected[i]].code.symbol == model.code[i].symbol
    {
      assert ShapeOf(i, bodies[i][selected[i]]);
    }

    lemma FixedOffered(rvas: seq<int>, i: nat, b: Binding)
      requires GraphInv() && CandidateOffered(fixed) && Consistent(Ctx(), Codes(bodies, selected), rvas)
      requires i < |bodies| && Short(i) && b in Ctx().fixed && b.symbol == model.code[i].symbol
      ensures b.symbol < |rvas| && rvas[b.symbol] in visited[i]
    {
      hide RowInv, ShapeOf, ReachInv;
      var k :| 0 <= k < |fixed| && fixed[k] == b;
      assert Handled(templateFor, Scanned(bodies), visited, fixed[k]);
    }

    /** A consistent assignment's candidate in one domain names its location of another template, so that was offered. */
    lemma NamedOffered(rvas: seq<int>, m: nat, i: nat)
      requires GraphInv() && Closed(templateFor, Scanned(bodies), visited, domains, |domains|)
      requires Consistent(Ctx(), Codes(bodies, selected), rvas)
      requires m < |bodies| && Held(rvas, m) && i < |bodies| && Short(i)
      requires Binds(Ctx(), Codes(bodies, selected)[m], model.code[i].symbol)
      ensures model.code[i].symbol < |rvas| && rvas[model.code[i].symbol] in visited[i]
    {
      hide RowInv, ShapeOf, ReachInv, Binds, FollowOk, ConstantsOk, OperandsPresent;
      var x, codes := Ctx(), Codes(bodies, selected);
      var p := rvas[codes[m].symbol];
      var c :| c in domains[m] && IsFor(x, codes[m], p, c);
      BindsIsStatic(x, codes[m], p, model.code[i].symbol);
      var b :| b in CandidateSet(x, codes[m], p) && b.symbol == model.code[i].symbol;
      assert ShapeAt(x, codes[m], rvas);
      assert b in c;
      HandledMember(templateFor, Scanned(bodies), visited, domains, m, c, b);
    }

    ghost predicate Held(rvas: seq<int>, i: nat)
      requires Shaped() && i < |bodies|
      reads this`bodies, this`found, this`attempted, this`fixed, this`selected, this`domains
    {
      var code := bodies[i][selected[i]].code;
      CodeShapeOk(model, code) && code.symbol < |rvas| && exists c | c in domains[i] :: IsFor(Ctx(), code, rvas[code.symbol], c)
    }

    // ----- arc consistency -----

    /** Whether some candidate of the domain agrees; false `ok` when the comparison budget runs out. */
    static method FindSupport(c: Candidate, domain: seq<Candidate>, comparisons: nat) returns (ok: bool, supported: bool, n: nat)
      requires Normalized(c) && (forall d | d in domain :: Normalized(d)) && comparisons <= 16777216
      ensures ok ==> (supported <==> SupportedBy(c, domain))
      ensures comparisons <= n <= comparisons + |domain| && (ok <==> n <= 16777216)
    {
      n := comparisons;
      for k := 0 to |domain|
        invariant comparisons <= n == comparisons + k <= 16777216
        invariant forall j | 0 <= j < k :: !Agree(c, domain[j])
      {
        n := n + 1;
        if n > 16777216 {
          return false, false, n;
        }
        var agrees := Agrees(c, domain[k]);
        if agrees {
          assert domain[k] in domain && Agree(c, domain[k]);
          return true, true, n;
        }
      }
      return true, false, n;
    }

    static method IsSupported(doms: seq<seq<Candidate>>, i: nat, c: Candidate, comparisons: nat)
      returns (ok: bool, supported: bool, n: nat)
      requires AllNormalized(doms) && Normalized(c) && comparisons <= 16777216
      ensures ok ==> (supported <==> Supported(doms, i, c))
      ensures comparisons <= n <= comparisons + Total(doms) && (ok <==> n <= 16777216)
    {
      hide Total;
      n := comparisons;
      supported := true;
      var other := 0;
      assert doms[..0] == [];
      NoTotal();
      while other < |doms| && supported
        invariant other <= |doms| && comparisons <= n <= 16777216 && n <= comparisons + Total(doms[..other]) <= comparisons + Total(doms)
        invariant supported ==> forall j | 0 <= j < other && j != i :: SupportedBy(c, doms[j])
        invariant !supported ==> !Supported(doms, i, c)
      {
        TotalNext(doms, other);
        if other != i {
          ok, supported, n := FindSupport(c, doms[other], n);
          if !ok { return; }
        }
        other := other + 1;
      }
      ok := true;
    }

    static lemma NoTotal()
      ensures Total([]) == 0
    {
    }

    /** Erases, in place, the candidates of one domain that some other domain does not support. */
    method PruneDomain(i: nat, comparisons: nat) returns (ok: bool, changed: bool, n: nat)
      requires i < |domains| && AllNormalized(domains) && comparisons <= 16777216 && error == NoError
      modifies this`domains, this`error
      ensures |domains| == |old(domains)| && Prunes(old(domains), domains) && AllNormalized(domains)
      ensures forall j | 0 <= j < |domains| && j != i :: domains[j] == old(domains)[j]
      ensures ok ==> error == NoError && n <= 16777216
      ensures ok && !changed ==> domains == old(domains) && forall c | c in domains[i] :: Supported(domains, i, c)
      ensures ok && changed ==> Total(domains) < Total(old(domains))
      ensures n <= comparisons + |old(domains)[i]| * Total(old(domains))
      ensures !ok ==> error == ComparisonLimit && n > 16777216
    {
      n, changed := comparisons, false;
      var at := 0;
      ghost var before, tested := domains, 0;
      while at < |domains[i]|
        invariant |domains| == |before| && at <= |domains[i]| && n <= 16777216 && error == NoError
        invariant Prunes(before, domains) && AllNormalized(domains)
        invariant forall j | 0 <= j < |domains| && j != i :: domains[j] == before[j]
        invariant forall k | 0 <= k < at :: Supported(before, i, domains[i][k])
        invariant if changed then Total(domains) < Total(before) else domains == before
        invariant tested + |domains[i]| - at == |before[i]| && n <= comparisons + tested * Total(before)
        decreases |domains[i]| - at
      {
        hide Supported, Agree, Total;
        var supported;
        ok, supported, n := IsSupported(domains, i, domains[i][at], n);
        OneMoreTested(tested, |before[i]|, Total(before));
        tested := tested + 1;
        if !ok {
          Fail(ComparisonLimit);
          return;
        }
        SameOthers(before, domains, i, domains[i][at]);
        if !supported {
          ghost var d := domains;
          EraseUnsupported(domains, i, at);
          EraseShrinks(domains, i, at);
          domains := domains[i := Erase(domains[i], at)];
          PrunesTrans(before, d, domains);
          StillNormalized(d, domains);
          changed := true;
        } else {
          at := at + 1;
        }
      }
      ok := true;
    }

    static lemma OneMoreTested(tested: nat, all: nat, total: nat)
      requires tested < all
      ensures tested * total + total == (tested + 1) * total <= all * total
    {
      MultipliesUp(tested + 1, all, total);
    }

    static lemma MultipliesUp(a: nat, b: nat, c: nat)
      requires a <= b
      ensures a * c <= b * c
    {
    }

    /** What can stop pruning: a contradiction, or more candidates than the limits allow for. */
    static ghost predicate PruneCause(e: Error, before: seq<seq<Candidate>>) {
      match e
      case Inconsistent => forall choice :: !Solution(before, choice)
      case ComparisonLimit => Total(before) > 255
      case IterationLimit => Total(before) >= 4096
      case _ => false
    }

    /** Conservative arc consistency: repeat pruning until a pass changes nothing. */
    method Constrain() returns (ok: bool)
      requires AllNormalized(domains) && error == NoError
      modifies this`domains, this`error
      ensures |domains| == |old(domains)| && Prunes(old(domains), domains) && AllNormalized(domains)
      ensures ok ==> error == NoError && ArcConsistent(domains) && forall i | 0 <= i < |domains| :: domains[i] != []
      ensures !ok ==> PruneCause(error, old(domains))
    {
      hide Supported, Agree, Total, Square, PruneCause, Prunes;
      PrunesNothing(domains);
      var comparisons: nat := 0;
      ghost var before := domains;
      for pass := 0 to 4096
        invariant |domains| == |before| && Prunes(before, domains) && AllNormalized(domains)
        invariant comparisons <= 16777216 && error == NoError
        invariant Total(domains) + pass <= Total(before)
        invariant comparisons <= pass * Square(Total(before))
      {
        ghost var start := domains;
        var changed;
        ok, changed, comparisons := ConstrainPass(before, pass, comparisons);
        PrunesTrans(before, start, domains);
        if !ok { return; }
        if !changed {
          return true;
        }
      }
      assert PruneCause(IterationLimit, before) by { ManyLeft(before); }
      Fail(IterationLimit);
      ok := false;
    }

    static lemma PrunesNothing(d: seq<seq<Candidate>>)
      ensures Prunes(d, d)
    {
    }

    static lemma ManyLeft(before: seq<seq<Candidate>>)
      requires Total(before) >= 4096
      ensures PruneCause(IterationLimit, before)
    {
    }

    static function Square(n: nat): nat { n * n }

    /** One pass over all domains. */
    method ConstrainPass(ghost before: seq<seq<Candidate>>, ghost pass: nat, comparisons: nat) returns (ok: bool, changed: bool, n: nat)
      requires |domains| == |before| && Prunes(before, domains) && AllNormalized(domains) && error == NoError
      requires comparisons <= 16777216 && Total(domains) + pass <= Total(before) && comparisons <= pass * Square(Total(before))
      modifies this`domains, this`error
      ensures |domains| == |old(domains)| && Prunes(old(domains), domains) && AllNormalized(domains)
      ensures ok ==> error == NoError && n <= 16777216 && n <= (pass + 1) * Square(Total(before))
      ensures ok ==> if changed then Total(domains) < Total(old(domains)) else domains == old(domains) && ArcConsistent(domains)
      ensures ok ==> forall i | 0 <= i < |domains| :: domains[i] != []
      ensures !ok ==> PruneCause(error, before)
    {
      hide Supported, Agree, Total, Square, Part, Prunes;
      n, changed := comparisons, false;
      ghost var start := domains;
      NoPart(before);
      PrunesNothing(domains);
      for i := 0 to |domains|
        invariant |domains| == |start| && Prunes(start, domains) && Prunes(before, domains) && AllNormalized(domains)
        invariant n <= 16777216 && error == NoError
        invariant n <= comparisons + Part(before, i) <= comparisons + Square(Total(before))
        invariant Total(domains) <= Total(start) && if changed then Total(domains) < Total(start) else domains == start
        invariant !changed ==> forall j, c | 0 <= j < i && c in domains[j] :: Supported(domains, j, c)
        invariant forall j | 0 <= j < i :: domains[j] != []
      {
        ghost var d := domains;
        var one;
        ok, one, n := PruneDomain(i, n);
        DomainTested(before, d, i);
        PrunesTrans(start, d, domains);
        PrunesTrans(before, d, domains);
        if !ok {
          TooManyCompared(Total(before), pass, comparisons, n);
          return;
        }
        changed := changed || one;
        if domains[i] == [] {
          EmptyHasNoSolution(before, domains, i);
          Fail(Inconsistent);
          return false, changed, n;
        }
      }
      PassTested(Total(before), pass);
      ok := true;
    }

    /** The first n domains' share of all pairs. */
    static ghost function Part(before: seq<seq<Candidate>>, n: nat): nat
      requires n <= |before|
    {
      Total(before[..n]) * Total(before)
    }

    static lemma NoPart(before: seq<seq<Candidate>>)
      ensures Part(before, 0) == 0
    {
      assert before[..0] == [];
    }

    /** Testing one domain compares no more than its share of all pairs. */
    static lemma DomainTested(before: seq<seq<Candidate>>, d: seq<seq<Candidate>>, i: nat)
      requires Prunes(before, d) && i < |d| == |before| && Total(d) <= Total(before)
      ensures Part(before, i) + |d[i]| * Total(d) <= Part(before, i + 1) <= Square(Total(before))
    {
      hide Total, Prunes;
      TotalNext(before, i);
      var t := Total(before);
      assert |d[i]| <= |before[i]| by { RowShrinks(before, d, i); }
      MultipliesUp(Total(d), t, |d[i]|);
      MultipliesUp(|d[i]|, |before[i]|, t);
      assert Total(before[..i]) * t + |before[i]| * t == (Total(before[..i]) + |before[i]|) * t;
      MultipliesUp(Total(before[..i + 1]), t, t);
    }

    static lemma RowShrinks(before: seq<seq<Candidate>>, d: seq<seq<Candidate>>, i: nat)
      requires Prunes(before, d) && i < |d|
      ensures |d[i]| <= |before[i]|
    {
    }

    static lemma PassTested(total: nat, pass: nat)
      ensures pass * Square(total) + Square(total) == (pass + 1) * Square(total)
    {
    }

    /** With at most 255 candidates the comparisons stay within the limit. */
    static lemma TooManyCompared(total: nat, pass: nat, comparisons: nat, n: nat)
      requires pass <= total && comparisons <= pass * Square(total) && n <= comparisons + Square(total) && n > 16777216
      ensures total > 255
    {
      if total <= 255 {
        MultipliesUp(total, 255, total);
        MultipliesUp(total, 255, 255);
        MultipliesUp(pass, 255, Square(total));
      }
    }

    // ----- publishing one assignment -----

    ghost predicate Chosen(rvas: seq<int>, i: nat, c: Candidate)
      requires Shaped() && i < |bodies|
      reads this`bodies, this`found, this`attempted, this`fixed, this`selected, this`domains
    {
      var code := bodies[i][selected[i]].code;
      c in domains[i] && CodeShapeOk(model, code) && code.symbol < |rvas| && IsFor(Ctx(), code, rvas[code.symbol], c)
    }

    lemma {:induction false} BuildChoice(rvas: seq<int>, n: nat) returns (choice: seq<Candidate>)
      requires Shaped() && n <= |bodies| && forall i | 0 <= i < n :: Held(rvas, i)
      ensures |choice| == n && forall i | 0 <= i < n :: Chosen(rvas, i, choice[i])
    {
      if n == 0 {
        choice := [];
      } else {
        choice := BuildChoice(rvas, n - 1);
        assert Held(rvas, n - 1);
        var c :| Chosen(rvas, n - 1, c);
        choice := choice + [c];
      }
    }

    lemma AllHeld(rvas: seq<int>)
      requires GraphInv() && CandidateOffered(fixed) && Closed(templateFor, Scanned(bodies), visited, domains, |domains|)
      requires forall i | 0 <= i < |domains| :: domains[i] != []
      requires Consistent(Ctx(), Codes(bodies, selected), rvas)
      ensures forall i | 0 <= i < |bodies| :: Held(rvas, i)
    {
      hide RowInv, ShapeOf, Present, Closed, HandledAll, Held, Consistent;
      forall i | 0 <= i < |bodies| ensures Held(rvas, i) {
        assert domains[i] != [] && i in order;
        var k :| 0 <= k < |order| && order[k] == i;
        ReachedChoice(rvas, k);
      }
    }

    /** Inference keeps, for every consistent assignment, one agreeing choice of candidates. */
    lemma ChoiceExists(rvas: seq<int>)
      requires GraphInv() && CandidateOffered(fixed) && Closed(templateFor, Scanned(bodies), visited, domains, |domains|)
      requires forall i | 0 <= i < |domains| :: domains[i] != []
      requires Consistent(Ctx(), Codes(bodies, selected), rvas)
      ensures exists choice :: Solution(domains, choice) && ChoiceFor(Ctx(), Codes(bodies, selected), rvas, choice)
    {
      hide RowInv, ShapeOf, Present, Closed, HandledAll, ReachInv;
      AllHeld(rvas);
      var choice := BuildChoice(rvas, |bodies|);
      var x, codes := Ctx(), Codes(bodies, selected);
      forall i | 0 <= i < |bodies| ensures choice[i] in domains[i] && ShapeAt(x, codes[i], rvas) && IsFor(x, codes[i], rvas[codes[i].symbol], choice[i]) {
        assert Chosen(rvas, i, choice[i]);
      }
      ChoiceAgrees(x, codes, rvas, choice);
    }

    /** Writes one candidate's bindings; refuses exactly when it contradicts what is known. */
    static method Merge(resolved: seq<int>, c: Candidate, ghost known: set<Binding>) returns (ok: bool, r: seq<int>)
      requires Holds(resolved, known) && Normalized(c) && InRange(c, |resolved|)
      ensures |r| == |resolved|
      ensures ok <==> Compatible(known, Elems(c))
      ensures ok ==> Holds(r, known + Elems(c))
    {
      hide Holds, Compatible, InRange;
      r := resolved;
      NothingMerged(resolved, known);
      for k := 0 to |c|
        invariant |r| == |resolved|
        invariant Compatible(known, Elems(c[..k]))
        invariant Holds(r, known + Elems(c[..k]))
      {
        MergeStep(r, c, k, known);
        if r[c[k].symbol] != UNKNOWN && r[c[k].symbol] != c[k].rva {
          return false, r;
        }
        r := r[c[k].symbol := c[k].rva];
      }
      assert c[..|c|] == c;
      ok := true;
    }

    static lemma NothingMerged(resolved: seq<int>, known: set<Binding>)
      requires Holds(resolved, known)
      ensures Compatible(known, Elems([])) && Holds(resolved, known + Elems([]))
    {
      assert known + Elems([]) == known;
    }

    /** Merges the single candidate of every domain. */
    method MergeFronts(resolved: seq<int>, ghost known: set<Binding>) returns (ok: bool, r: seq<int>)
      requires Holds(resolved, known) && error == NoError && |domains| == |model.code|
      requires forall i, c | 0 <= i < |domains| && c in domains[i] :: Normalized(c) && InRange(c, |resolved|)
      modifies this`error
      ensures |r| == |resolved|
      ensures ok ==> error == NoError && (forall i | 0 <= i < |domains| :: |domains[i]| == 1) &&
                     Holds(r, known + Fronts(domains, |domains|))
      ensures !ok ==> (error.Ambiguous? && exists i | 0 <= i < |domains| :: |domains[i]| != 1) || error.ConflictingSymbol?
      ensures error == ConflictingSymbol ==> !FrontsFit(known, domains)
    {
      r := resolved;
      for i := 0 to |domains|
        invariant |r| == |resolved| && error == NoError
        invariant forall j | 0 <= j < i :: |domains[j]| == 1
        invariant Holds(r, known + Fronts(domains, i))
      {
        if |domains[i]| != 1 {
          Fail(Ambiguous);
          assert |domains[i]| != 1;
          return false, r;
        }
        assert domains[i][0] in domains[i];
        var next;
        ok, next := Merge(r, domains[i][0], known + Fronts(domains, i));
        if !ok {
          if FrontsFit(known, domains) { FrontsCompatible(known, domains, i, i); }
          Fail(ConflictingSymbol);
          return false, r;
        }
        r := next;
        assert known + Fronts(domains, i) + Elems(domains[i][0]) == known + Fronts(domains, i + 1);
      }
      ok := true;
    }

    lemma InferredSound()
      requires GraphInv()
      ensures DomainsSound(Ctx(), Codes(bodies, selected), domains)
    {
      hide RowInv, DomainSound;
      forall i | 0 <= i < |domains|
        ensures CodeShapeOk(model, Codes(bodies, selected)[i]) && DomainSound(Ctx(), Codes(bodies, selected)[i], domains[i])
      {
        RowSound(Ctx(), bodies[i], selected[i], domains[i], found[i], attempted[i], visited[i]);
      }
    }

    /** Image base, fixed bindings and every template's single candidate; refuses ambiguity and unresolved symbols. */
    method Assemble(ghost codes: seq<Template>) returns (ok: bool, r: seq<int>)
      requires error == NoError && |domains| == |model.code| && FixedOk(Ctx(), fixed)
      requires DomainsSound(Ctx(), codes, domains) && ArcConsistent(domains) && forall i | 0 <= i < |domains| :: domains[i] != []
      modifies this`error
      ensures ok ==> error == NoError && (forall i | 0 <= i < |domains| :: |domains[i]| == 1)
      ensures ok ==> |r| == |model.symbols| && UNKNOWN !in r
      ensures ok ==> Holds(r, Zeros(model) + Elems(fixed) + Fronts(domains, |domains|))
      ensures !ok ==> AssembleCause(error, codes)
    {
      hide ArcConsistent, DomainsSound, Compatible, Holds, Unbound;
      var zeros := seq(|model.symbols|, s requires 0 <= s < |model.symbols| => if model.symbols[s].kind.ImageBaseKind? then 0 else UNKNOWN);
      ZerosHold(zeros);
      var written := WriteFixed(zeros);
      SoundInRange(codes);
      ArcFits(Ctx(), codes, domains);
      ok, r := MergeFronts(written, Zeros(model) + Elems(fixed));
      if !ok { return; }
      if UNKNOWN in r {
        LeftUnbound(r);
        Fail(UnresolvedSymbol);
        ok := false;
      }
    }

    lemma ZerosHold(zeros: seq<int>)
      requires |zeros| == |model.symbols|
      requires forall s | 0 <= s < |zeros| :: zeros[s] == if model.symbols[s].kind.ImageBaseKind? then 0 else UNKNOWN
      ensures Holds(zeros, Zeros(model))
    {
    }

    lemma SoundInRange(codes: seq<Template>)
      requires DomainsSound(Ctx(), codes, domains)
      ensures forall i, c | 0 <= i < |domains| && c in domains[i] :: Normalized(c) && InRange(c, |model.symbols|)
    {
      hide DomainSound;
      forall i, c | 0 <= i < |domains| && c in domains[i] ensures Normalized(c) && InRange(c, |model.symbols|) {
        SoundFits(Ctx(), codes[i], domains[i], c);
      }
    }

    lemma LeftUnbound(r: seq<int>)
      requires Singles(domains) && UNKNOWN in r && |r| == |model.symbols|
      requires Holds(r, Zeros(model) + Elems(fixed) + Fronts(domains, |domains|))
      ensures exists s | 0 <= s < |model.symbols| :: Unbound(s)
    {
      var s :| 0 <= s < |r| && r[s] == UNKNOWN;
      assert Unbound(s);
    }

    /** The answer is not single: two candidates of one template survive, each supported by every other template; or
        it is not whole: neither the image base, nor the roots, nor any template binds some symbol. */
    ghost predicate AssembleCause(e: Error, codes: seq<Template>)
      reads this`fixed, this`domains
    {
      match e
      case Ambiguous => DomainsSound(Ctx(), codes, domains) && ArcConsistent(domains) && exists i | 0 <= i < |domains| :: |domains[i]| >= 2
      case UnresolvedSymbol => exists s | 0 <= s < |model.symbols| :: Unbound(s)
      case _ => false
    }

    ghost predicate Unbound(s: nat)
      reads this`fixed, this`domains
    {
      Singles(domains) && forall b | b in Zeros(model) + Elems(fixed) + Fronts(domains, |domains|) :: b.symbol != s
    }

    method WriteFixed(zeros: seq<int>) returns (r: seq<int>)
      requires FixedOk(Ctx(), fixed) && Holds(zeros, Zeros(model)) && |zeros| == |model.symbols|
      ensures |r| == |zeros| && Holds(r, Zeros(model) + Elems(fixed))
    {
      hide Holds;
      r := zeros;
      assert Zeros(model) + Elems(fixed[..0]) == Zeros(model);
      for k := 0 to |fixed|
        invariant |r| == |zeros| && Holds(r, Zeros(model) + Elems(fixed[..k]))
      {
        assert fixed[k] in fixed;
        WriteOne(r, Zeros(model), fixed, k);
        r := r[fixed[k].symbol := fixed[k].rva];
      }
      assert fixed[..|fixed|] == fixed;
    }

    /** Matches every accepted body again, in full, at its published location. */
    method Reread(resolved: seq<int>) returns (ok: bool)
      requires Shaped() && Normalized(fixed) && error == NoError && |resolved| == |model.symbols| && Singles(domains)
      modifies this`error, this`readCalls, this`requestedBytes
      ensures ok ==> error == NoError && forall i | 0 <= i < |bodies| :: FrontAt(resolved, i)
      ensures !ok ==> ReadCause(error) || exists i | 0 <= i < |bodies| :: !FrontAt(resolved, i)
    {
      hide ShapeOf, FrontAt;
      for i := 0 to |bodies|
        invariant error == NoError
        invariant forall j | 0 <= j < i :: FrontAt(resolved, j)
      {
        ok := RereadOne(resolved, i);
        if !ok { return; }
      }
      ok := true;
    }

    /** Only a change or reading trouble makes the candidate differ: equal sets of bindings have one canonical list. */
    method RereadOne(resolved: seq<int>, i: nat) returns (ok: bool)
      requires Shaped() && Normalized(fixed) && error == NoError && |resolved| == |model.symbols| && Singles(domains) && i < |bodies|
      modifies this`error, this`readCalls, this`requestedBytes
      ensures ok ==> error == NoError && FrontAt(resolved, i)
      ensures !ok ==> ReadCause(error) || !FrontAt(resolved, i)
    {
      hide Present, ShapeOf, ModelOk, CodeShapeOk;
      AdoptedSymbol(i);
      AdoptedBody(i);
      var matched, c := MatchBody(bodies[i][selected[i]], resolved[model.code[i].symbol]);
      if matched && FrontAt(resolved, i) { NormalizedUnique(c, domains[i][0]); }
      if !matched || c != domains[i][0] {
        Fail(CodeChanged);
        return false;
      }
      ok := true;
    }

    lemma AdoptedBody(i: nat)
      requires Shaped() && i < |bodies|
      ensures BodyOk(model, bodies[i][selected[i]])
    {
      assert ShapeOf(i, bodies[i][selected[i]]);
    }

    ghost predicate FrontAt(resolved: seq<int>, i: nat)
      requires Shaped() && i < |bodies|
      reads this`bodies, this`found, this`attempted, this`fixed, this`selected, this`domains
    {
      var code := bodies[i][selected[i]].code;
      CodeShapeOk(model, code) && code.symbol < |resolved| && domains[i] != [] &&
      IsFor(Ctx(), code, resolved[code.symbol], domains[i][0])
    }

    method RereadConstants(resolved: seq<int>) returns (ok: bool)
      requires Ok() && error == NoError && |resolved| == |model.symbols| && forall s | 0 <= s < |resolved| :: resolved[s] >= 0
      modifies this`error, this`readCalls, this`requestedBytes
      ensures ok ==> error == NoError && ConstantsMatch(Ctx(), resolved)
      ensures !ok ==> ReadCause(error) || !ConstantsMatch(Ctx(), resolved)
    {
      hide ConstantOk;
      for k := 0 to |model.constants|
        invariant error == NoError
        invariant forall j | 0 <= j < k :: ConstantOk(Ctx(), model.constants[j], resolved[model.constants[j].symbol])
      {
        var same := CheckConstant(model.constants[k], resolved[model.constants[k].symbol]);
        if !same {
          Fail(ConstantChanged);
          return false;
        }
      }
      ok := true;
    }

    /** Follows every pointer relation again; nothing may be added or moved. */
    method RereadPointers(resolved: seq<int>) returns (ok: bool)
      requires Ok() && error == NoError && |resolved| == |model.symbols|
      modifies this`error, this`readCalls, this`requestedBytes
      ensures ok ==> error == NoError && PointersMatch(Ctx(), resolved)
      ensures !ok ==> ReadCause(error) || !AddsNothing(Ctx(), resolved)
    {
      hide FollowOk, Followed, PointerMatches;
      var expected := Listing(resolved);
      var all;
      ok, all := FollowPointers(expected);
      if ok && AddsNothing(Ctx(), resolved) { NormalizedUnique(all, expected); }
      if !ok || all != expected {
        Fail(PointerChanged);
        return false;
      }
      forall k | 0 <= k < |model.pointers| ensures PointerMatches(Ctx(), resolved, model.pointers[k]) {
        UnmovedPointer(Ctx(), resolved, k);
      }
    }

    static ghost predicate AddsNothing(x: Context, resolved: seq<int>)
      requires ModelOk(x.image, x.model, x.base)
    {
      FollowOk(x, Elems(Listing(resolved))) && Followed(x, Elems(Listing(resolved))) == Elems(Listing(resolved))
    }

    /** No shape declared before the adopted one of a scanned template is anywhere in the image. */
    ghost predicate MostSpecific()
      requires Shaped()
      reads this`bodies, this`found, this`attempted, this`fixed, this`selected, this`domains
    {
      forall i | 0 <= i < |bodies| && !Short(i) :: EarlierNowhere(Ctx(), bodies[i], selected[i])
    }

    /** What a published resolution guarantees, against the plain specification. */
    ghost predicate Published(rvas: seq<int>)
      reads this`bodies, this`found, this`attempted, this`fixed, this`selected, this`domains
    {
      && Shaped() && MostSpecific()
      && (forall s | 0 <= s < |rvas| :: 0 <= rvas[s])
      && Consistent(Ctx(), Codes(bodies, selected), rvas)
      && ConstantsMatch(Ctx(), rvas) && PointersMatch(Ctx(), rvas)
      && forall other | Consistent(Ctx(), Codes(bodies, selected), other) :: other == rvas
    }

    ghost predicate Discovered()
      reads this`bodies, this`found, this`attempted, this`fixed, this`selected, this`domains
    {
      && Shaped() && FixedOk(Ctx(), fixed) && MostSpecific()
      && DomainsSound(Ctx(), Codes(bodies, selected), domains)
      && Survives(Ctx(), Codes(bodies, selected), domains)
    }

    /** Scan and inference: domains are sound, and no consistent assignment has been lost. */
    method Discover() returns (ok: bool)
      requires ScanInv() && TemplatesIndexed() && Fresh() && |visited| == |bodies| && maximumSeed >= 7 && FixedOk(Ctx(), fixed)
      modifies this`error, this`readCalls, this`requestedBytes, this`scannedBytes, this`attempts, this`candidateCount,
               this`found, this`attempted, this`selected, this`domains, this`visited, this`order
      ensures ok ==> error == NoError && Discovered()
      ensures !ok ==> (error == NotFound && SomeAbsent()) || InferCause(error)
    {
      hide RowInv, BodiesOk, DomainsSound, Closed, CandidateOffered, ReachInv;
      ok := Scan();
      if !ok { return; }
      ok := Infer();
      if !ok { return; }
      InferredSound();
      InferredSpecific();
      InferredSurvives();
    }

    lemma InferredSpecific()
      requires GraphInv()
      ensures MostSpecific()
    {
      hide RowInv, EarlierNowhere;
      forall i | 0 <= i < |bodies| && !Short(i) ensures EarlierNowhere(Ctx(), bodies[i], selected[i]) {
        RowMostSpecific(Ctx(), bodies[i], selected[i], domains[i], found[i], attempted[i], visited[i]);
      }
    }

    lemma InferredSurvives()
      requires GraphInv() && CandidateOffered(fixed) && Closed(templateFor, Scanned(bodies), visited, domains, |domains|)
      requires forall i | 0 <= i < |domains| :: domains[i] != []
      ensures Survives(Ctx(), Codes(bodies, selected), domains)
    {
      hide BodiesOk, RowInv, Consistent, Closed, HandledAll, ReachInv;
      forall rvas | Consistent(Ctx(), Codes(bodies, selected), rvas)
        ensures exists choice :: Solution(domains, choice) && ChoiceFor(Ctx(), Codes(bodies, selected), rvas, choice)
      {
        ChoiceExists(rvas);
      }
    }

    /** One candidate per template is left and the assignment is assembled from them. */
    ghost predicate Assembled(resolved: seq<int>)
      reads this`bodies, this`found, this`attempted, this`fixed, this`selected, this`domains
    {
      && Discovered() && Singles(domains) && |resolved| == |model.symbols| && UNKNOWN !in resolved
      && Holds(resolved, Zeros(model) + Elems(fixed) + Fronts(domains, |domains|))
    }

    /** Nothing is consistent with the adopted shapes. */
    ghost predicate Refutes()
      reads this`bodies, this`found, this`attempted, this`fixed, this`selected, this`domains
    {
      Shaped() && NoneConsistent(Ctx(), Codes(bodies, selected))
    }

    /** Pruning, then one entry per symbol. A contradiction is reported only when no assignment is consistent
        with the adopted shapes; two templates never disagree on a symbol once pruning is done. */
    method PruneAndAssemble() returns (ok: bool, resolved: seq<int>)
      requires Discovered() && error == NoError
      modifies this`error, this`domains
      ensures ok ==> error == NoError && Assembled(resolved)
      ensures !ok ==> PruneCause(error, old(domains)) || AssembleCause(error, Codes(bodies, selected))
      ensures error == Inconsistent ==> Refutes()
    {
      hide ShapeOf, DomainSound, Survives, ArcConsistent, Prunes, FixedOk, AllNormalized, EarlierNowhere, Holds, ModelOk, NoneConsistent;
      ghost var x, codes, before := Ctx(), Codes(bodies, selected), domains;
      resolved := [];
      SoundNormalized(x, codes, domains);
      ok := Constrain();
      if !ok {
        if error == Inconsistent { Refuted(x, codes, before); }
        return;
      }
      PrunedSound(x, codes, before, domains);
      PrunedSurvives(x, codes, before, domains);
      ok, resolved := Assemble(codes);
    }

    /** Prunes, assembles and rereads: publishes only the single consistent assignment. After pruning and assembly
        nothing but reading trouble can stop it. */
    method Publish() returns (valid: bool, resolved: seq<int>)
      requires Discovered() && error == NoError && ContractReread.FixedClosed(Ctx())
      modifies this`error, this`readCalls, this`requestedBytes, this`domains, this`unpruned
      ensures valid ==> Published(resolved) && error == NoError
      ensures !valid ==> PublishCause(error)
    {
      hide Discovered, Published, Assembled, Refutes, ContractReread.FixedClosed, PruneCause, AssembleCause, ReadCause;
      PublishSized();
      unpruned := domains;
      valid, resolved := PruneAndAssemble();
      if valid { valid := Confirm(resolved); }
    }

    ghost predicate PublishCause(e: Error)
      reads this`bodies, this`found, this`attempted, this`fixed, this`selected, this`domains, this`unpruned, this`readCalls, this`requestedBytes
    {
      && |bodies| == |selected| && (forall i | 0 <= i < |bodies| :: selected[i] < |bodies[i]|)
      && ((PruneCause(e, unpruned) && (e.Inconsistent? ==> Refutes())) || AssembleCause(e, Codes(bodies, selected)) || ReadCause(e))
    }

    lemma PublishSized()
      requires Discovered()
      ensures |bodies| == |selected| && forall i | 0 <= i < |bodies| :: selected[i] < |bodies[i]|
    {
      hide BodiesOk, FixedOk, MostSpecific, DomainsSound, Survives;
    }

    /** Everything the assignment rests on is read once more; on an unchanging image that finds nothing new. */
    method Confirm(resolved: seq<int>) returns (ok: bool)
      requires Assembled(resolved) && error == NoError && ContractReread.FixedClosed(Ctx())
      modifies this`error, this`readCalls, this`requestedBytes
      ensures ok ==> Published(resolved) && error == NoError
      ensures !ok ==> ReadCause(error)
    {
      hide BodiesOk, DomainSound, Survives, Consistent, EarlierNowhere, Holds, ConstantsMatch, PointersMatch, FrontAt, ModelOk,
           ContractReread.FixedClosed, AddsNothing;
      AssembledSettled(resolved);
      ok := Reread(resolved);
      if !ok { return; }
      ok := RereadConstants(resolved);
      if !ok { return; }
      ok := RereadPointers(resolved);
      if !ok { return; }
      PublishedOnly(Ctx(), resolved);
    }

    /** All that the reread compares is already settled. */
    lemma AssembledSettled(resolved: seq<int>)
      requires Assembled(resolved) && ContractReread.FixedClosed(Ctx())
      ensures forall i | 0 <= i < |bodies| :: FrontAt(resolved, i)
      ensures ConstantsMatch(Ctx(), resolved) && AddsNothing(Ctx(), resolved) && forall s | 0 <= s < |resolved| :: resolved[s] >= 0
    {
      hide BodiesOk, DomainSound, Survives, EarlierNowhere, Holds, FrontAt, ModelOk, ContractReread.FixedClosed, FollowOk, Followed, ConstantOk;
      ghost var x, codes := Ctx(), Codes(bodies, selected);
      assert ContractReread.Settled(x, codes, domains, resolved);
      PublishedNonnegative(resolved);
      forall i | 0 <= i < |bodies| ensures FrontAt(resolved, i) { FrontSettled(resolved, i); }
      forall k | 0 <= k < |model.constants|
        ensures model.constants[k].symbol < |resolved| && ConstantOk(x, model.constants[k], resolved[model.constants[k].symbol])
      {
        ContractReread.ConstantSettled(x, codes, domains, resolved, k);
      }
      ContractReread.NothingAdded(x, codes, domains, resolved);
    }

    lemma FrontSettled(resolved: seq<int>, i: nat)
      requires Shaped() && ContractReread.Settled(Ctx(), Codes(bodies, selected), domains, resolved) && i < |bodies|
      ensures FrontAt(resolved, i)
    {
      hide IsFor, ContractReread.Settled;
      AdoptedSymbol(i);
      ContractReread.SettledModel(Ctx(), Codes(bodies, selected), domains, resolved);
      ContractReread.FrontPresent(Ctx(), Codes(bodies, selected), domains, resolved, i);
    }

    lemma PublishedNonnegative(resolved: seq<int>)
      requires Shaped() && FixedOk(Ctx(), fixed) && Singles(domains) && UNKNOWN !in resolved
      requires DomainsSound(Ctx(), Codes(bodies, selected), domains) && |resolved| == |model.symbols|
      requires Holds(resolved, Zeros(model) + Elems(fixed) + Fronts(domains, |domains|))
      ensures forall s | 0 <= s < |resolved| :: resolved[s] >= 0
    {
      hide BodiesOk, DomainSound;
      var codes := Codes(bodies, selected);
      forall s | 0 <= s < |resolved| ensures resolved[s] >= 0 {
        var b := Binding(s, resolved[s]);
        if b in Fronts(domains, |domains|) {
          FrontsMember(domains, |domains|, b);
          var i :| 0 <= i < |domains| && b in Elems(domains[i][0]);
          SoundNonnegative(Ctx(), codes[i], domains[i], domains[i][0], b);
        }
      }
    }

    lemma PublishedOnly(x: Context, resolved: seq<int>)
      requires Shaped() && x == Ctx() && Singles(domains) && UNKNOWN !in resolved && |resolved| == |model.symbols|
      requires Survives(x, Codes(bodies, selected), domains)
      requires Holds(resolved, Zeros(model) + Elems(fixed) + Fronts(domains, |domains|))
      requires forall i | 0 <= i < |bodies| :: FrontAt(resolved, i)
      ensures Consistent(x, Codes(bodies, selected), resolved)
      ensures forall other | Consistent(x, Codes(bodies, selected), other) :: other == resolved
    {
      hide Present, IsFor, Consistent;
      var codes := Codes(bodies, selected);
      forall i | 0 <= i < |codes|
        ensures CodeShapeOk(model, codes[i]) && IsFor(x, codes[i], resolved[codes[i].symbol], domains[i][0])
      {
        assert FrontAt(resolved, i);
      }
      PublishedConsistent(x, codes, domains, resolved);
      forall other | Consistent(x, codes, other) ensures other == resolved {
        var choice :| Solution(domains, choice) && ChoiceFor(x, codes, other, choice);
        PublishedUnique(x, codes, domains, resolved, other, choice);
      }
    }

    // ----- preparation -----

    /** The first longest run of operand-free bytes. */
    static method LongestRun(exact: seq<bool>) returns (offset: nat, size: nat)
      ensures FreeRun(exact, offset, size)
      ensures forall o: nat, n: nat | FreeRun(exact, o, n) :: n <= size
    {
      offset, size := 0, 0;
      var length := 0;
      for at := 0 to |exact|
        invariant length <= at && FreeRun(exact, at - length, length)
        invariant at == length || !exact[at - length - 1]
        invariant FreeRun(exact, offset, size) && length <= size
        invariant forall o: nat, n: nat | FreeRun(exact, o, n) && o + n <= at :: n <= size
      {
        length := if exact[at] then length + 1 else 0;
        if length > size {
          offset, size := at + 1 - length, length;
        }
        forall o: nat, n: nat | FreeRun(exact, o, n) && o + n == at + 1 && n > 0 ensures n <= length {
          assert exact[at];
        }
      }
    }

    /** Clears the bytes of one operand; refuses a byte another operand already covers. */
    static method MarkOperand(exact: seq<bool>, op: Operand) returns (ok: bool, r: seq<bool>)
      requires op.offset + op.width <= |exact|
      ensures |r| == |exact|
      ensures ok ==> forall at | 0 <= at < |exact| :: r[at] <==> exact[at] && !CoveredBy(op, at)
      ensures ok <==> forall at | 0 <= at < |exact| && CoveredBy(op, at) :: exact[at]
    {
      r := exact;
      for at := op.offset to op.offset + op.width
        invariant |r| == |exact|
        invariant forall k | op.offset <= k < at :: exact[k] && !r[k]
        invariant forall k | 0 <= k < |exact| && !(op.offset <= k < at) :: r[k] == exact[k]
      {
        if !r[at] {
          assert CoveredBy(op, at);
          return false, r;
        }
        r := r[at := false];
      }
      ok := true;
    }

    /** Validates one shape and finds its seed. */
    method BuildBody(code: Template) returns (ok: bool, body: Body)
      requires error == NoError
      modifies this`error
      ensures ok ==> BodyOk(model, body) && body.code == code && error == NoError
      ensures ok ==> forall o: nat, n: nat | FreeRun(body.exact, o, n) :: n <= body.seedSize
      ensures ok ==> GoodCode(model, code) && (body.discoverable <==> Discoverable(code))
      ensures !ok ==> CodeCause(model, code, error)
    {
      body := Body(code, [], 0, 0, false);
      if |code.bytes| == 0 || |code.bytes| > 16384 || (code.minimumSeed != 7 && code.minimumSeed != 8) ||
         code.symbol >= |model.symbols| || !model.symbols[code.symbol].kind.CodeKind? ||
         |code.bytes| > model.symbols[code.symbol].extent
      {
        Fail(InvalidCodeTemplate);
        return false, body;
      }
      var exact := seq(|code.bytes|, at => true);
      for k := 0 to |code.operands|
        invariant |exact| == |code.bytes| && error == NoError
        invariant forall j | 0 <= j < k :: OperandShapeOk(model, code, code.operands[j])
        invariant forall at | 0 <= at < |exact| :: exact[at] <==> forall j | 0 <= j < k :: !CoveredBy(code.operands[j], at)
        invariant forall i, j, at | 0 <= i < j < k && CoveredBy(code.operands[j], at) :: !CoveredBy(code.operands[i], at)
      {
        var op := code.operands[k];
        if (op.width != 1 && op.width != 4) || op.target >= |model.symbols| || op.offset + op.width > |code.bytes| ||
           (op.kind.PcRelative? && (op.pcOffset < op.offset + op.width || op.pcOffset > |code.bytes|)) ||
           (op.kind.ImageRva? && op.pcOffset != 0)
        {
          assert BadOperand(model, code, op);
          Fail(InvalidOperand);
          return false, body;
        }
        ghost var before := exact;
        ok, exact := MarkOperand(exact, op);
        if !ok {
          ghost var at :| 0 <= at < |before| && CoveredBy(op, at) && !before[at];
          ghost var j :| 0 <= j < k && CoveredBy(code.operands[j], at);
          SharesByte(code, j, k, at);
          Fail(OverlappingOperands);
          return false, body;
        }
      }
      NoSharedByte(code);
      GoodShape(model, code);
      var offset, size := LongestRun(exact);
      SeedDecides(code, exact, offset, size);
      body := Body(code, exact, offset, size, size >= code.minimumSeed);
      ok := true;
    }

    constructor (image: Image, model: Model, roots: seq<Binding>, base: nat, reader: Reader)
      ensures this.image == image && this.model == model && this.roots == roots && this.base == base && this.reader == reader
      ensures error == NoError && fixed == [] && bodies == [] && order == [] && seeds == map[] && maximumSeed == 0
      ensures attempts == 0 && readCalls == 0 && requestedBytes == 0 && candidateCount == 0
    {
      this.image, this.model, this.roots, this.base, this.reader := image, model, roots, base, reader;
      fixed, error := [], NoError;
      readCalls, requestedBytes, scannedBytes, candidateCount, attempts := 0, 0, 0, 0, 0;
      bodies, found, attempted, selected, domains := [], [], [], [], [];
      templateFor, seeds, maximumSeed := [], map[], 0;
      visited, order, unpruned := [], [], [];
    }

    ghost predicate BuiltRow(i: nat, row: seq<Body>)
      requires i < |model.code|
    {
      && 0 < |row| <= 8 && row[0].code == model.code[i]
      && forall b | 0 <= b < |row| ::
           && BodyOk(model, row[b]) && row[b].code.symbol == model.code[i].symbol
           && GoodCode(model, row[b].code) && (row[b].discoverable <==> Discoverable(row[b].code))
           && |row[b].code.bytes| == |model.code[i].bytes|
           && row[b].discoverable == row[0].discoverable && (b > 0 ==> row[b].code in model.variants)
    }

    /** The shapes of every template: the declared one first, then the variants of the same symbol. */
    ghost predicate Built()
      reads this`bodies
    {
      |bodies| == |model.code| && forall i | 0 <= i < |bodies| :: BuiltRow(i, bodies[i])
    }

    /** Every template has exactly the declared shape and its variants, in order. */
    ghost predicate Complete()
      reads this`bodies
    {
      RowsComplete(model, bodies, model.variants)
    }

    method BuildTemplates() returns (ok: bool)
      requires error == NoError && bodies == [] && |model.code| <= 64
      modifies this`error, this`bodies, this`templateFor
      ensures ok ==> error == NoError && Built() && TemplatesIndexed() && RowsComplete(model, bodies, [])
      ensures !ok ==> Faulty(In(), error)
    {
      templateFor := seq(|model.symbols|, s => UNKNOWN);
      for i := 0 to |model.code|
        invariant |bodies| == i && error == NoError && |templateFor| == |model.symbols|
        invariant forall j | 0 <= j < i :: BuiltRow(j, bodies[j]) && |bodies[j]| == 1
        invariant forall s | 0 <= s < |templateFor| && templateFor[s] != UNKNOWN ::
                    0 <= templateFor[s] < i && model.code[templateFor[s]].symbol == s
        invariant forall j | 0 <= j < i :: model.code[j].symbol < |templateFor| && templateFor[model.code[j].symbol] == j
      {
        var code := model.code[i];
        assert code in model.code + model.variants;
        if code.symbol >= |model.symbols| || templateFor[code.symbol] != UNKNOWN {
          assert code.symbol >= |model.symbols| ==> CodeCause(model, code, InvalidCodeTemplate);
          Fail(InvalidCodeTemplate);
          return false;
        }
        templateFor := templateFor[code.symbol := i];
        var body;
        ok, body := BuildBody(code);
        if !ok { return; }
        bodies := bodies + [[body]];
      }
      NoVariants(model, bodies);
      ok := true;
    }

    method AddVariants() returns (ok: bool)
      requires error == NoError && Built() && TemplatesIndexed() && RowsComplete(model, bodies, [])
      modifies this`error, this`bodies
      ensures ok ==> error == NoError && Built() && forall i | 0 <= i < |model.variants| :: CodeShapeOk(model, model.variants[i])
      ensures ok ==> Complete()
      ensures ok ==> forall v | 0 <= v < |model.variants| :: Fits(v)
      ensures !ok ==> Faulty(In(), error)
    {
      hide Built, CodeShapeOk, RowsComplete, Faulty;
      assert model.variants[..0] == [];
      for v := 0 to |model.variants|
        invariant error == NoError && Built() && RowsComplete(model, bodies, model.variants[..v])
        invariant forall j | 0 <= j < v :: CodeShapeOk(model, model.variants[j]) && Fits(j)
      {
        ok := AddVariant(v);
        if !ok { return; }
      }
      assert model.variants[..|model.variants|] == model.variants;
      ok := true;
    }

    /** The variant is sound and like the template of its symbol, which exists. */
    ghost predicate Fits(v: nat)
      requires v < |model.variants|
    {
      && GoodCode(model, model.variants[v])
      && exists i | 0 <= i < |model.code| :: model.code[i].symbol == model.variants[v].symbol && !Unlike(model.code[i], model.variants[v])
    }

    /** One more shape of a declared template, like its first one in length and discoverability. */
    method AddVariant(v: nat) returns (ok: bool)
      requires error == NoError && Built() && TemplatesIndexed() && v < |model.variants|
      requires RowsComplete(model, bodies, model.variants[..v])
      modifies this`error, this`bodies
      ensures ok ==> error == NoError && Built() && CodeShapeOk(model, model.variants[v]) && Fits(v)
      ensures ok ==> RowsComplete(model, bodies, model.variants[..v + 1])
      ensures !ok ==> Faulty(In(), error)
    {
      hide CodeShapeOk, InvariantByte, RowsComplete, GoodCode, Discoverable, Faulty;
      var variant := model.variants[v];
      assert variant in model.code + model.variants;
      if variant.symbol >= |model.symbols| || templateFor[variant.symbol] == UNKNOWN {
        Unnamed(v);
        Fail(InvalidVariant);
        return false;
      }
      var i := templateFor[variant.symbol];
      assert BuiltRow(i, bodies[i]);
      if |bodies[i]| >= 8 {
        TooManyVariants(v, i);
        Fail(VariantLimit);
        return false;
      }
      var body;
      ok, body := BuildBody(variant);
      if !ok {
        CodeFaulty(variant, error);
        return;
      }
      if body.discoverable != bodies[i][0].discoverable || |variant.bytes| != |bodies[i][0].code.bytes| {
        UnlikeOne(i, v);
        Fail(InconsistentVariant);
        return false;
      }
      assert !Unlike(model.code[i], variant);
      OneMoreVariant(model, bodies, v, i, body);
      bodies := bodies[i := bodies[i] + [body]];
    }

    lemma CodeFaulty(code: Template, e: Error)
      requires code in model.code + model.variants && CodeCause(model, code, e)
      ensures Faulty(In(), e)
    {
      hide BadFields, BadOperands, OperandsCollide;
      assert SomeCode(model, e);
    }

    lemma Unnamed(v: nat)
      requires v < |model.variants| && !Named(model.code, model.variants[v].symbol)
      ensures Faulty(In(), InvalidVariant)
    {
    }

    lemma UnlikeOne(i: nat, v: nat)
      requires i < |model.code| && v < |model.variants| && Unlike(model.code[i], model.variants[v])
      ensures Faulty(In(), InconsistentVariant)
    {
      hide Unlike;
    }

    lemma TooManyVariants(v: nat, i: nat)
      requires v < |model.variants| && RowsComplete(model, bodies, model.variants[..v]) && i < |bodies| && |bodies[i]| >= 8
      requires model.code[i].symbol == model.variants[v].symbol
      ensures Faulty(In(), VariantLimit)
    {
      VariantsCount(model.variants, model.variants[v].symbol, v);
      assert |RowCodes(bodies[i])| == 1 + |VariantsOf(model.variants[..v], model.code[i].symbol)|;
    }

    method IndexShape(i: nat, b: nat)
      requires Built() && i < |bodies| && b < |bodies[i]| && bodies[i][b].discoverable && EntriesOk(bodies, seeds)
      requires IndexedBelow(i) && forall c | 0 <= c < b :: Indexed(i, c, bodies[i][c])
      modifies this`seeds, this`maximumSeed
      ensures EntriesOk(bodies, seeds) && maximumSeed >= 7
      ensures IndexedBelow(i) && forall c | 0 <= c <= b :: Indexed(i, c, bodies[i][c])
    {
      hide Listed, BodyOk, Key, GoodCode, Discoverable, CodeShapeOk;
      assert BuiltRow(i, bodies[i]);
      var body := bodies[i][b];
      SeedLong(body);
      var key := SeedKey(body);
      var list := if key in seeds then seeds[key] else [];
      ghost var before, longest := seeds, maximumSeed;
      seeds := seeds[key := list + [(i, b)]];
      if maximumSeed < body.seedSize { maximumSeed := body.seedSize; }
      assert seeds[key][|list|] == (i, b);
      StillListed(before, longest, seeds, maximumSeed, key, list, i, b, body);
    }

    lemma SeedLong(body: Body)
      requires BodyOk(model, body) && body.discoverable
      ensures 7 <= body.seedSize && body.seedOffset + body.seedSize <= |body.code.bytes|
    {
    }

    /** Every discoverable shape of templates before `i` is listed. */
    ghost predicate IndexedBelow(i: nat)
      reads this`bodies, this`seeds, this`maximumSeed
    {
      i <= |bodies| &&
      forall j, c | 0 <= j < i && 0 <= c < |bodies[j]| && bodies[j][c].discoverable :: Indexed(j, c, bodies[j][c])
    }

    method IndexRow(i: nat)
      requires Built() && i < |bodies| && EntriesOk(bodies, seeds) && bodies[i][0].discoverable && IndexedBelow(i)
      modifies this`seeds, this`maximumSeed
      ensures EntriesOk(bodies, seeds) && maximumSeed >= 7 && IndexedBelow(i + 1)
    {
      hide SeedKey, BodyOk;
      assert BuiltRow(i, bodies[i]);
      for b := 0 to |bodies[i]|
        invariant EntriesOk(bodies, seeds) && (b > 0 ==> maximumSeed >= 7) && IndexedBelow(i)
        invariant forall c | 0 <= c < b :: Indexed(i, c, bodies[i][c])
      {
        IndexShape(i, b);
      }
    }

    /** Registers every shape of every discoverable template under its seed key. */
    method IndexSeeds() returns (ok: bool)
      requires error == NoError && Built() && seeds == map[] && maximumSeed == 0
      modifies this`error, this`seeds, this`maximumSeed
      ensures ok ==> error == NoError && SeedsOk() && maximumSeed >= 7 && !Faulty(In(), NoSeed)
      ensures !ok ==> Faulty(In(), error)
    {
      hide Indexed, BodyOk, GoodCode, Discoverable;
      for i := 0 to |bodies|
        invariant EntriesOk(bodies, seeds) && error == NoError && (maximumSeed == 0 || maximumSeed >= 7)
        invariant IndexedBelow(i)
        invariant maximumSeed == 0 <==> forall j | 0 <= j < i :: !Discoverable(model.code[j])
      {
        assert BuiltRow(i, bodies[i]);
        if bodies[i][0].discoverable {
          IndexRow(i);
        }
      }
      if maximumSeed == 0 {
        Fail(NoSeed);
        return false;
      }
      ok := true;
    }

    /** Copies the roots once each is a valid address of its symbol. */
    method CopyRoots() returns (ok: bool)
      requires error == NoError && fixed == []
      modifies this`error, this`fixed
      ensures ok ==> error == NoError && fixed == roots && RootsValid() && !Faulty(In(), RootCountLimit)
      ensures !ok ==> Faulty(In(), error)
    {
      if |roots| > |model.symbols| {
        Fail(RootCountLimit);
        return false;
      }
      for k := 0 to |roots|
        invariant error == NoError && fixed == roots[..k]
        invariant forall j | 0 <= j < k :: roots[j].symbol < |model.symbols| && SymbolValid(image, model, roots[j].symbol, roots[j].rva)
      {
        if roots[k].symbol >= |model.symbols| || !SymbolValid(image, model, roots[k].symbol, roots[k].rva) {
          assert BadRoot(In(), roots[k]);
          Fail(InvalidRoot);
          return false;
        }
        fixed := fixed + [roots[k]];
      }
      ok := true;
    }

    predicate RootsValid() {
      forall b | b in roots :: b.symbol < |model.symbols| && SymbolValid(image, model, b.symbol, b.rva)
    }

    lemma RootsNonnegative()
      requires RootsValid()
      ensures forall j | 0 <= j < |roots| :: roots[j].rva >= 0
    {
      forall j | 0 <= j < |roots| ensures roots[j].rva >= 0 {
        assert SymbolValid(image, model, roots[j].symbol, roots[j].rva);
      }
    }

    /** Puts the copied roots into canonical order; two roots of one symbol are refused. */
    method OrderRoots() returns (ok: bool)
      requires error == NoError && fixed == roots
      modifies this`error, this`fixed
      ensures ok ==> error == NoError && Normalized(fixed) && Elems(fixed) == Elems(roots) && OneEach(roots)
      ensures !ok ==> Faulty(In(), error)
    {
      SortSorts(fixed);
      SortOneEach(fixed);
      fixed := SortBindings(fixed);
      ok := DistinctSymbols(fixed);
      if !ok { Fail(InvalidRoot); }
    }

    /** Roots are valid addresses of distinct symbols; their pointer slots are followed and their constants checked. */
    method BindRoots() returns (ok: bool)
      requires Ok() && error == NoError && fixed == []
      modifies this`error, this`readCalls, this`requestedBytes, this`fixed
      ensures ok ==> error == NoError && FixedOk(Ctx(), fixed) && Elems(fixed) == Followed(Ctx(), Elems(roots))
      ensures ok ==> ContractReread.FixedClosed(Ctx())
      ensures ok ==> !Faulty(In(), RootCountLimit) && !Faulty(In(), InvalidRoot) && !Faulty(In(), RootPointer) && !Faulty(In(), RootConstant)
      ensures !ok ==> Faulty(In(), error) || ReadCause(error)
    {
      hide Followed, FollowOk, SymbolValid, ModelOk, ConstantsOk, ContractReread.FixedClosed, FixedOk, RootConstantsOk;
      ok := CopyRoots();
      if !ok { return; }
      ok := OrderRoots();
      if !ok { return; }
      assert Elems(fixed) == Elems(roots);
      ok := FollowRoots();
      if !ok { return; }
      RootsNonnegative();
      ok := CheckRootConstants();
      if ok { RootsClosed(); }
    }

    method FollowRoots() returns (ok: bool)
      requires Ok() && error == NoError && RootsValid() && Normalized(fixed) && Elems(fixed) == Elems(roots)
      modifies this`error, this`readCalls, this`requestedBytes, this`fixed
      ensures ok ==> error == NoError && FixedOk(Ctx(), fixed) && Elems(fixed) == Followed(Ctx(), Elems(roots))
      ensures ok ==> FollowOk(Ctx(), Elems(roots)) && !Faulty(In(), RootPointer)
      ensures !ok ==> Faulty(In(), error) || ReadCause(error)
    {
      hide Followed, FollowOk, SymbolValid, ModelOk, FixedOk;
      var followed;
      ok, followed := FollowPointers(fixed);
      if !ok {
        Fail(RootPointer);
        return;
      }
      FollowedFixed(Ctx(), Ctx(), Elems(roots), followed);
      ghost var before := Ctx();
      fixed := followed;
      SameFollowOk(before, Ctx(), Elems(roots));
    }

    lemma RootsClosed()
      requires Ok() && Elems(fixed) == Followed(Ctx(), Elems(roots)) && FollowOk(Ctx(), Elems(roots))
      requires RootConstantsOk(|model.constants|, |roots|)
      ensures ContractReread.FixedClosed(Ctx()) && ConstantsOk(Rooted(In()), Elems(roots))
    {
      hide Followed, FollowOk, ConstantOk;
      forall k | 0 <= k < |model.constants|
        ensures ConstantOkFor(Ctx(), Elems(roots), model.constants[k]) && ConstantOkFor(Rooted(In()), Elems(roots), model.constants[k])
      {
        forall b | b in Elems(roots) && b.symbol == model.constants[k].symbol
          ensures ConstantOk(Ctx(), model.constants[k], b.rva) && ConstantOk(Rooted(In()), model.constants[k], b.rva)
        {
          var j :| 0 <= j < |roots| && roots[j] == b;
          assert RootConstantOk(k, j);
          SameConstant(Ctx(), Rooted(In()), model.constants[k], b.rva);
        }
      }
      ContractReread.FixedIsClosed(Ctx(), Elems(roots));
    }

    static lemma SameConstant(x: Context, z: Context, c: Constant, rva: int)
      requires x.image == z.image
      ensures ConstantOk(x, c, rva) <==> ConstantOk(z, c, rva)
    {
    }

    lemma WrongConstant(k: nat, j: nat)
      requires k < |model.constants| && j < |roots| && model.constants[k].symbol == roots[j].symbol
      requires !ConstantOk(Ctx(), model.constants[k], roots[j].rva)
      ensures Faulty(In(), RootConstant)
    {
      SameConstant(Ctx(), Rooted(In()), model.constants[k], roots[j].rva);
      assert roots[j] in Elems(roots);
      assert !ConstantOkFor(Rooted(In()), Elems(roots), model.constants[k]);
    }

    method DistinctSymbols(sorted: Candidate) returns (distinct: bool)
      requires Sorted(sorted)
      ensures distinct <==> Normalized(sorted)
    {
      var k := 1;
      while k < |sorted|
        invariant forall i, j | 0 <= i < j < k && j < |sorted| :: sorted[i].symbol < sorted[j].symbol
      {
        assert Before(sorted[k - 1], sorted[k]);
        if sorted[k - 1].symbol == sorted[k].symbol {
          return false;
        }
        k := k + 1;
      }
      return true;
    }

    ghost predicate RootConstantsOk(n: nat, m: nat)
      reads this`fixed
    {
      forall k, j | 0 <= k < n && k < |model.constants| && 0 <= j < m && j < |roots| :: RootConstantOk(k, j)
    }

    ghost predicate RootConstantOk(k: nat, j: nat)
      requires k < |model.constants| && j < |roots|
      reads this`fixed
    {
      model.constants[k].symbol == roots[j].symbol ==> ConstantOk(Ctx(), model.constants[k], roots[j].rva)
    }

    method CheckRootConstants() returns (ok: bool)
      requires Ok() && error == NoError && forall j | 0 <= j < |roots| :: roots[j].rva >= 0
      modifies this`error, this`readCalls, this`requestedBytes
      ensures if ok then error == NoError else Faulty(In(), error) || ReadCause(error)
      ensures ok ==> RootConstantsOk(|model.constants|, |roots|)
    {
      hide ConstantOk;
      for k := 0 to |model.constants|
        invariant error == NoError && RootConstantsOk(k, |roots|)
      {
        for j := 0 to |roots|
          invariant error == NoError && RootConstantsOk(k, |roots|)
          invariant forall i | 0 <= i < j :: RootConstantOk(k, i)
        {
          if model.constants[k].symbol == roots[j].symbol {
            var same := CheckConstant(model.constants[k], roots[j].rva);
            if !same {
              if !ConstantOk(Ctx(), model.constants[k], roots[j].rva) { WrongConstant(k, j); }
              Fail(RootConstant);
              return false;
            }
          }
        }
      }
      ok := true;
    }

    /** Every shape of every template is one the model declares for that symbol. */
    ghost predicate Declared()
      reads this`bodies
    {
      |bodies| == |model.code| && forall i, b | 0 <= i < |bodies| && 0 <= b < |bodies[i]| ::
        if b == 0 then bodies[i][b].code == model.code[i]
        else bodies[i][b].code in model.variants && bodies[i][b].code.symbol == model.code[i].symbol
    }

    /** Everything before the scan: it succeeds on faultless inputs only, and refuses faulty inputs only, unless reading fails. */
    method Prepare() returns (ok: bool)
      requires |image.bytes| <= UNKNOWN && error == NoError && fixed == [] && bodies == [] && order == []
      requires seeds == map[] && maximumSeed == 0 && attempts == 0
      modifies this
      ensures ok ==> ScanInv() && TemplatesIndexed() && Fresh() && |visited| == |bodies| && maximumSeed >= 7
      ensures ok ==> FixedOk(Ctx(), fixed) && Elems(fixed) == Followed(Ctx(), Elems(roots)) && Declared() && Complete() && Capped(model)
      ensures ok ==> ContractReread.FixedClosed(Ctx())
      ensures ok ==> Faultless(In())
      ensures !ok ==> Faulty(In(), error) || ReadCause(error)
    {
      hide Built, SeedsOk, TemplatesIndexed, ModelOk, Followed, ScanInv, Declared, Complete, SymbolValid, ModelSound, Faulty, Capped,
           ContractReread.FixedClosed, Faultless, ReadCause;
      ok := CheckModel();
      if !ok { return; }
      ok := IndexSeeds();
      if !ok { return; }
      ok := CheckConstantShapes();
      if !ok { return; }
      ok := CheckPointers();
      if !ok { return; }
      CheckedModel();
      ok := BindRoots();
      if !ok { return; }
      NothingWrong();
      Reset();
    }

    /** Image, symbols, templates and variants. */
    method CheckModel() returns (ok: bool)
      requires |image.bytes| <= UNKNOWN && error == NoError && bodies == []
      modifies this`error, this`bodies, this`templateFor
      ensures ok ==> Built() && TemplatesIndexed() && Complete() && error == NoError && ModelSound()
      ensures !ok ==> Faulty(In(), error)
    {
      hide Built, TemplatesIndexed, Complete, RowsComplete, CodeShapeOk, Fits, Faulty;
      ok := CheckImage();
      if !ok { return; }
      ok := CheckSymbols();
      if !ok { return; }
      ok := BuildTemplates();
      if !ok { return; }
      Counts();
      if |model.variants| > 64 {
        Fail(ModelCountLimit);
        return false;
      }
      ok := AddVariants();
      if !ok { return; }
      if TemplateBytes(model.code + model.variants) > 262144 || OperandCount(model.code + model.variants) > 65536 {
        TooLarge();
        Fail(InvalidCodeTemplate);
        return false;
      }
    }

    lemma Counts()
      requires 0 < |model.symbols| <= 4096 && 0 < |model.code| <= 64 && |model.constants| <= 4096 && |model.pointers| <= 256
      ensures Faulty(In(), ModelCountLimit) <==> |model.variants| > 64
    {
    }

    lemma TooLarge()
      requires TemplateBytes(model.code + model.variants) > 262144 || OperandCount(model.code + model.variants) > 65536
      ensures Faulty(In(), InvalidCodeTemplate)
    {
    }

    /** What the first checks establish. */
    ghost predicate ModelSound() {
      && !Faulty(In(), InvalidMetadata) && !Faulty(In(), InvalidSections) && !Faulty(In(), CodeScanLimit)
      && !Faulty(In(), ModelCountLimit) && !Faulty(In(), InvalidSymbol)
      && TemplateBytes(model.code + model.variants) <= 262144 && OperandCount(model.code + model.variants) <= 65536
      && (forall v | 0 <= v < |model.variants| :: CodeShapeOk(model, model.variants[v]) && Fits(v))
    }

    method CheckImage() returns (ok: bool)
      requires error == NoError
      modifies this`error
      ensures ok ==> error == NoError
      ensures ok ==> !Faulty(In(), InvalidMetadata) && !Faulty(In(), InvalidSections) && !Faulty(In(), CodeScanLimit)
      ensures !ok ==> Faulty(In(), error)
    {
      hide Apart, BadSection, Share;
      if |image.bytes| == 0 || |image.sections| == 0 || |image.sections| > 96 {
        Fail(InvalidMetadata);
        return false;
      }
      ok := CheckBounds();
      if !ok { return; }
      ok := CheckApart();
      if !ok { return; }
      if CodeSize(image.sections) == 0 || CodeSize(image.sections) > CODE_LIMIT {
        Fail(CodeScanLimit);
        return false;
      }
      SectionsGood();
    }

    lemma SectionsGood()
      requires (forall k | 0 <= k < |image.sections| :: !BadSection(image, image.sections[k])) && Apart(image.sections)
      ensures !BadSections(image)
    {
    }

    /** Every section lies inside the image. */
    method CheckBounds() returns (ok: bool)
      requires error == NoError
      modifies this`error
      ensures ok ==> error == NoError && forall k | 0 <= k < |image.sections| :: !BadSection(image, image.sections[k])
      ensures !ok ==> Faulty(In(), error)
    {
      for i := 0 to |image.sections|
        invariant error == NoError && forall k | 0 <= k < i :: !BadSection(image, image.sections[k])
      {
        var section := image.sections[i];
        if section.rva == 0 || section.size == 0 || section.rva + section.size > |image.bytes| {
          assert BadSection(image, section);
          Fail(InvalidSections);
          return false;
        }
      }
      ok := true;
    }

    /** No two sections share a byte, as their order by address shows. */
    method CheckApart() returns (ok: bool)
      requires error == NoError && image.sections != [] && forall k | 0 <= k < |image.sections| :: !BadSection(image, image.sections[k])
      modifies this`error
      ensures ok ==> error == NoError && Apart(image.sections)
      ensures !ok ==> Faulty(In(), error)
    {
      hide Apart, SortSections;
      SortApart(image.sections);
      var sorted := SortSections(image.sections);
      assert image.sections[0] in sorted;
      assert forall x | x in sorted :: x.size > 0;
      for k := 1 to |sorted|
        invariant error == NoError && forall j | 1 <= j < k && j < |sorted| :: Follows(sorted, j)
      {
        if sorted[k - 1].rva + sorted[k - 1].size > sorted[k].rva {
          TwoShare(sorted, k);
          Fail(InvalidSections);
          return false;
        }
      }
      NeighboursDecide(sorted);
      ok := true;
    }

    lemma TwoShare(sorted: seq<Section>, k: nat)
      requires 1 <= k < |sorted| && Ascending(sorted) && sorted[k].size > 0 && (Apart(sorted) <==> Apart(image.sections))
      requires sorted[k - 1].rva + sorted[k - 1].size > sorted[k].rva
      ensures BadSections(image)
    {
      assert Share(sorted[k - 1], sorted[k]);
    }

    method CheckSymbols() returns (ok: bool)
      requires error == NoError
      modifies this`error
      ensures ok ==> error == NoError && !Faulty(In(), InvalidSymbol)
      ensures ok ==> 0 < |model.symbols| <= 4096 && 0 < |model.code| <= 64 && |model.constants| <= 4096 && |model.pointers| <= 256
      ensures !ok ==> Faulty(In(), error)
    {
      if |model.symbols| == 0 || |model.symbols| > 4096 || |model.code| == 0 || |model.code| > 64 || |model.constants| > 4096 ||
         |model.pointers| > 256
      {
        Fail(ModelCountLimit);
        return false;
      }
      for s := 0 to |model.symbols|
        invariant error == NoError && forall k | 0 <= k < s :: !BadSymbol(image, model.symbols[k])
      {
        var symbol := model.symbols[s];
        if (!symbol.kind.ImageBaseKind? && (symbol.extent == 0 || symbol.extent > |image.bytes|)) ||
           (symbol.kind.ImageBaseKind? && symbol.extent > 1)
        {
          assert BadSymbol(image, symbol);
          Fail(InvalidSymbol);
          return false;
        }
      }
      ok := true;
    }

    method CheckConstantShapes() returns (ok: bool)
      requires error == NoError
      modifies this`error
      ensures ok ==> error == NoError && !Faulty(In(), InvalidConstant)
      ensures !ok ==> Faulty(In(), error)
    {
      for k := 0 to |model.constants|
        invariant error == NoError && forall j | 0 <= j < k :: !BadConstant(model, model.constants[j])
      {
        var c := model.constants[k];
        if c.symbol >= |model.symbols| || !model.symbols[c.symbol].kind.ReadOnlyKind? || |c.bytes| == 0 || |c.bytes| > 4096 ||
           c.offset + |c.bytes| > model.symbols[c.symbol].extent
        {
          assert BadConstant(model, c);
          Fail(InvalidConstant);
          return false;
        }
      }
      if ConstantBytes(model.constants) > 65536 {
        Fail(InvalidConstant);
        return false;
      }
      ok := true;
    }

    /** The loaded base and every pointer relation; one slot is related once. */
    method CheckPointers() returns (ok: bool)
      requires error == NoError && TemplatesIndexed()
      modifies this`error
      ensures ok ==> error == NoError && !Faulty(In(), InvalidBase) && !Faulty(In(), InvalidPointer)
      ensures !ok ==> Faulty(In(), error)
    {
      if model.pointers != [] && (base == 0 || base % 8 != 0 || base + |image.bytes| > 0xFFFF_FFFF_FFFF_FFFF) {
        Fail(InvalidBase);
        return false;
      }
      for k := 0 to |model.pointers|
        invariant error == NoError && forall j | 0 <= j < k :: !BadPointer(model, model.pointers[j])
        invariant forall i, j | 0 <= i < j < k :: !SameSlot(model.pointers[i], model.pointers[j])
      {
        var p := model.pointers[k];
        if p.owner >= |model.symbols| || p.target >= |model.symbols| || !model.symbols[p.owner].kind.ReadOnlyKind? ||
           !model.symbols[p.target].kind.CodeKind? || templateFor[p.target] == UNKNOWN || p.offset % 8 != 0 ||
           p.offset + 8 > model.symbols[p.owner].extent
        {
          assert BadPointer(model, p);
          Fail(InvalidPointer);
          return false;
        }
        for j := 0 to k
          invariant error == NoError && forall i | 0 <= i < j :: !SameSlot(model.pointers[i], p)
        {
          if model.pointers[j].owner == p.owner && model.pointers[j].offset == p.offset {
            Fail(InvalidPointer);
            return false;
          }
        }
      }
      ok := true;
    }

    /** Everything checked amounts to a valid model within its limits. */
    lemma CheckedModel()
      requires |image.bytes| <= UNKNOWN && Built() && TemplatesIndexed() && Complete() && ModelSound()
      requires !Faulty(In(), InvalidConstant) && !Faulty(In(), InvalidBase) && !Faulty(In(), InvalidPointer)
      ensures Ok() && Capped(model)
    {
      hide Built, Complete, Discoverable, Fits, CodeShapeOk;
      BuiltModel();
      CheckedShapes();
    }

    lemma CheckedShapes()
      requires ModelSound() && !Faulty(In(), InvalidConstant) && !Faulty(In(), InvalidPointer)
      ensures forall i | 0 <= i < |image.sections| :: image.sections[i].rva + image.sections[i].size <= |image.bytes|
      ensures forall k | 0 <= k < |model.constants| :: ConstantShapeOk(model, model.constants[k])
      ensures forall k | 0 <= k < |model.pointers| :: PointerShapeOk(model, model.pointers[k])
    {
      forall i | 0 <= i < |image.sections| ensures image.sections[i].rva + image.sections[i].size <= |image.bytes| {
        assert !BadSection(image, image.sections[i]);
      }
      forall k | 0 <= k < |model.constants| ensures ConstantShapeOk(model, model.constants[k]) {
        assert !BadConstant(model, model.constants[k]);
      }
      forall k | 0 <= k < |model.pointers| ensures PointerShapeOk(model, model.pointers[k]) {
        assert !BadPointer(model, model.pointers[k]);
      }
    }

    /** No cause is left that could justify refusing the inputs. */
    lemma NothingWrong()
      requires Built() && TemplatesIndexed() && Complete() && ModelSound() && Capped(model)
      requires !Faulty(In(), InvalidConstant) && !Faulty(In(), InvalidBase) && !Faulty(In(), InvalidPointer) && !Faulty(In(), NoSeed)
      requires !Faulty(In(), RootCountLimit) && !Faulty(In(), InvalidRoot) && !Faulty(In(), RootPointer) && !Faulty(In(), RootConstant)
      ensures Faultless(In())
    {
      hide Faulty;
      NoBadCode();
      NoBadVariant();
      forall e: Error ensures !Faulty(In(), e) { FaultlessBut(e); }
    }

    lemma FaultlessBut(e: Error)
      requires ModelSound() && !Faulty(In(), InvalidCodeTemplate) && !Faulty(In(), InvalidOperand) && !Faulty(In(), OverlappingOperands)
      requires !Faulty(In(), InvalidVariant) && !Faulty(In(), VariantLimit) && !Faulty(In(), InconsistentVariant)
      requires !Faulty(In(), InvalidConstant) && !Faulty(In(), InvalidBase) && !Faulty(In(), InvalidPointer) && !Faulty(In(), NoSeed)
      requires !Faulty(In(), RootCountLimit) && !Faulty(In(), InvalidRoot) && !Faulty(In(), RootPointer) && !Faulty(In(), RootConstant)
      ensures !Faulty(In(), e)
    {
      hide BadSections, SomeCode, Discoverable, BadOperands, TemplateBytes, OperandCount, ConstantBytes, CodeSize, ModelOk, FollowOk, ConstantsOk, Unlike,
           BadConstant, BadPointer, BadRoot, BadSymbol;
    }

    lemma NoBadCode()
      requires Built() && ModelSound() && Capped(model)
      ensures !Faulty(In(), InvalidCodeTemplate) && !Faulty(In(), InvalidOperand) && !Faulty(In(), OverlappingOperands)
    {
      hide BodyOk, Discoverable, CodeShapeOk;
      forall code | code in model.code + model.variants ensures GoodCode(model, code) {
        if code in model.code {
          var i :| 0 <= i < |model.code| && model.code[i] == code;
          assert BuiltRow(i, bodies[i]);
        } else {
          var v :| 0 <= v < |model.variants| && model.variants[v] == code;
          assert Fits(v);
        }
      }
    }

    lemma NoBadVariant()
      requires Built() && Complete() && ModelSound() && Capped(model)
      ensures !Faulty(In(), InvalidVariant) && !Faulty(In(), VariantLimit) && !Faulty(In(), InconsistentVariant)
    {
      hide BodyOk, GoodCode, CodeShapeOk, Discoverable;
      forall v | 0 <= v < |model.variants|
        ensures Named(model.code, model.variants[v].symbol) && |VariantsOf(model.variants, model.variants[v].symbol)| <= 7
        ensures forall i | 0 <= i < |model.code| :: !Unlike(model.code[i], model.variants[v])
      {
        assert Fits(v);
        var i :| 0 <= i < |model.code| && model.code[i].symbol == model.variants[v].symbol && !Unlike(model.code[i], model.variants[v]);
        assert BuiltRow(i, bodies[i]) && |RowCodes(bodies[i])| == |bodies[i]|;
        assert RowCodes(bodies[i]) == DeclaredShapes(model, i, model.variants);
      }
    }

    lemma BuiltModel()
      requires Built()
      ensures forall i | 0 <= i < |model.code| :: CodeShapeOk(model, model.code[i])
    {
      forall i | 0 <= i < |model.code| ensures CodeShapeOk(model, model.code[i]) {
        assert BuiltRow(i, bodies[i]);
        assert BodyOk(model, bodies[i][0]);
      }
    }

    /** Empty results for every shape. */
    method Reset()
      requires Ok() && Built() && SeedsOk() && Normalized(fixed) && error == NoError && order == [] && attempts == 0
      modifies this`found, this`attempted, this`selected, this`domains, this`visited
      ensures ScanInv() && Fresh() && |visited| == |bodies| && Declared()
    {
      hide Built, ModelOk, SeedsOk, ShapeOf, Declared, AllFound, ShortUntouched, Tally;
      found := Blank(bodies, []);
      attempted := Blank(bodies, {});
      selected := seq(|bodies|, i => 0);
      domains := seq(|bodies|, i => []);
      visited := seq(|bodies|, i => {});
      BuiltShaped();
      TallyNothing(attempted);
      NothingFound();
    }

    lemma NothingFound()
      requires Shaped()
      requires forall i, b | 0 <= i < |bodies| && 0 <= b < |bodies[i]| :: found[i][b] == [] && attempted[i][b] == {}
      ensures AllFound() && ShortUntouched()
    {
      hide BodyOk, Present, IsFor;
      forall i, b | 0 <= i < |bodies| && 0 <= b < |bodies[i]|
        ensures CodeShapeOk(model, bodies[i][b].code) && FoundFor(Ctx(), bodies[i][b].code, found[i][b], attempted[i][b])
      {
        ShapeKnown(i, b);
      }
    }

    lemma ShapeKnown(i: nat, b: nat)
      requires BodiesOk() && i < |bodies| && b < |bodies[i]|
      ensures CodeShapeOk(model, bodies[i][b].code)
    {
      assert ShapeOf(i, bodies[i][b]);
    }

    lemma BuiltShaped()
      requires Built()
      ensures BodiesOk() && Declared() && forall i | 0 <= i < |bodies| :: |bodies[i]| > 0
    {
      hide BodyOk;
      forall i | 0 <= i < |bodies| ensures |bodies[i]| > 0 {
        assert BuiltRow(i, bodies[i]);
      }
      forall i, b | 0 <= i < |bodies| && 0 <= b < |bodies[i]| ensures ShapeOf(i, bodies[i][b]) {
        assert BuiltRow(i, bodies[i]);
      }
      forall i, b | 0 <= i < |bodies| && 0 <= b < |bodies[i]|
        ensures if b == 0 then bodies[i][b].code == model.code[i]
                else bodies[i][b].code in model.variants && bodies[i][b].code.symbol == model.code[i].symbol
      {
        assert BuiltRow(i, bodies[i]);
      }
    }

    /** Every way a resolution can fail, with what justifies it: faulty inputs; a reader that refuses or an allowance
        used up; a template that is nowhere; more attempts, places, candidates or comparisons than the limits; a
        template no one names; no, several or incomplete answers. Nothing else happens on an unchanging image. */
    ghost predicate Caused(e: Error)
      reads this
    {
      Faulty(In(), e) || ReadCause(e) || (e.NotFound? && SomeAbsent()) || InferCause(e) || PublishCause(e)
    }

    /** The whole resolution. */
    method Resolve() returns (valid: bool, symbols: seq<int>)
      requires |image.bytes| <= UNKNOWN && error == NoError && fixed == [] && bodies == [] && order == []
      requires seeds == map[] && maximumSeed == 0 && attempts == 0
      modifies this
      ensures valid ==> Published(symbols) && Declared() && Complete() && Capped(model) && Elems(fixed) == Followed(Ctx(), Elems(roots))
      ensures valid <==> error == NoError
      ensures valid ==> Faultless(In())
      ensures !valid ==> Caused(error)
    {
      hide BodiesOk, ScanInv, TemplatesIndexed, FixedOk, Discovered, Published, Complete, SomeAbsent, Refutes, Capped, Declared, Fresh,
           ContractReread.FixedClosed, Faulty, Faultless, ReadCause, InferCause, PublishCause;
      symbols := [];
      valid := Prepare();
      if !valid {
        CauseIsError(error);
        return;
      }
      valid := Discover();
      if !valid {
        CauseIsError(error);
        return;
      }
      valid, symbols := Publish();
      if !valid { CauseIsError(error); }
    }

    lemma CauseIsError(e: Error)
      requires Caused(e)
      ensures e != NoError
    {
    }
  }
}
