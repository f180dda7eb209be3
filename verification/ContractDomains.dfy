/** Candidate lists and what they mean: a list found for a shape is exact, domains are sound and complete,
    offers reach every short template, pruning keeps every agreeing choice, and one assignment survives. */
module ContractDomains {
  import opened Bindings
  import opened ContractModel
  import opened LoadedImage

  /** One shipped build's shape of a body with its longest operand-free run. */
  datatype Body = Body(code: Template, exact: seq<bool>, seedOffset: nat, seedSize: nat, discoverable: bool)

  ghost predicate BodyOk(model: Model, body: Body) {
    && CodeShapeOk(model, body.code)
    && |body.exact| == |body.code.bytes|
    && (forall at | 0 <= at < |body.exact| :: body.exact[at] <==> InvariantByte(body.code, at))
    && body.seedOffset + body.seedSize <= |body.exact|
    && (forall at | body.seedOffset <= at < body.seedOffset + body.seedSize :: body.exact[at])
    && (body.discoverable <==> body.seedSize >= body.code.minimumSeed)
  }

  function Key(b: seq<byte>): nat
    requires |b| == 4
  {
    Le(b)
  }

  lemma PointersPrefix(x: Context, known: set<Binding>, k: nat, n: nat)
    requires k <= n <= |x.model.pointers| && ModelOk(x.image, x.model, x.base)
    ensures PointersOk(x, known, n) ==> PointersOk(x, known, k)
  {
  }

  lemma PointerSkip(x: Context, candidate: Candidate, k: nat)
    requires k < |x.model.pointers| && ModelOk(x.image, x.model, x.base)
    requires forall b | b in candidate :: b.symbol != x.model.pointers[k].owner
    ensures PointersOk(x, Elems(candidate), k) ==> PointersOk(x, Elems(candidate), k + 1)
    ensures PointerBindings(x, Elems(candidate), k + 1) == PointerBindings(x, Elems(candidate), k)
  {
  }

  /** One more pointer relation adds exactly what its bound owner's slot holds. */
  lemma PointerStep(x: Context, candidate: Candidate, k: nat, owner: int)
    requires Normalized(candidate) && k < |x.model.pointers| && ModelOk(x.image, x.model, x.base)
    requires Binding(x.model.pointers[k].owner, owner) in candidate
    ensures var p, known := x.model.pointers[k], Elems(candidate);
            (PointersOk(x, known, k + 1) <==> PointersOk(x, known, k) && PointerOk(x, p, owner)) &&
            PointerBindings(x, known, k + 1) ==
            PointerBindings(x, known, k) + {Binding(p.target, WordAt(x.image, owner + p.offset) - x.base)}
  {
    NormalizedIsFunctional(candidate);
    assert Binding(x.model.pointers[k].owner, owner) in Elems(candidate);
    PointerStepOk(x, Elems(candidate), k, owner);
    PointerStepBindings(x, Elems(candidate), k, owner);
  }

  lemma PointerStepOk(x: Context, known: set<Binding>, k: nat, owner: int)
    requires Functional(known) && k < |x.model.pointers| && ModelOk(x.image, x.model, x.base)
    requires Binding(x.model.pointers[k].owner, owner) in known
    ensures PointersOk(x, known, k + 1) <==> PointersOk(x, known, k) && PointerOk(x, x.model.pointers[k], owner)
  {
    var o := Binding(x.model.pointers[k].owner, owner);
    assert forall b | b in known && b.symbol == o.symbol :: b == o;
  }

  lemma PointerStepBindings(x: Context, known: set<Binding>, k: nat, owner: int)
    requires Functional(known) && k < |x.model.pointers|
    requires Binding(x.model.pointers[k].owner, owner) in known
    ensures PointerBindings(x, known, k + 1) ==
            PointerBindings(x, known, k) +
            {Binding(x.model.pointers[k].target, WordAt(x.image, owner + x.model.pointers[k].offset) - x.base)}
  {
    var p := x.model.pointers[k];
    var o := Binding(p.owner, owner);
    assert forall b | b in known && b.symbol == p.owner :: b == o;
    assert BoundBy(x, known, p) == {Binding(p.target, WordAt(x.image, owner + p.offset) - x.base)};
  }

  // ----- matching one shape at one location -----

  lemma MatchedNonnegative(x: Context, code: Template, rva: int)
    requires ModelOk(x.image, x.model, x.base) && CodeShapeOk(x.model, code)
    requires BytesPresent(x, code, rva) && OperandsPresent(x, code, rva)
    requires FollowOk(x, OwnBindings(x, code, rva, |code.operands|))
    ensures forall b | b in CandidateSet(x, code, rva) :: b.rva >= 0
  {
    forall b | b in CandidateSet(x, code, rva) ensures b.rva >= 0 {
      BindingValid(x, code, rva, b);
    }
  }

  // ----- shared state -----

  /** The stored candidates of one shape are exactly its attempted locations where it is present. */
  ghost predicate FoundFor(x: Context, code: Template, found: seq<Candidate>, attempted: set<int>)
    requires ModelOk(x.image, x.model, x.base) && CodeShapeOk(x.model, code)
  {
    FoundSound(x, code, found, attempted) && FoundComplete(x, code, found, attempted) && Distinct(found)
  }

  ghost predicate FoundSound(x: Context, code: Template, found: seq<Candidate>, attempted: set<int>)
    requires ModelOk(x.image, x.model, x.base) && CodeShapeOk(x.model, code)
  {
    forall c | c in found :: exists p | p in attempted :: IsFor(x, code, p, c)
  }

  ghost predicate FoundComplete(x: Context, code: Template, found: seq<Candidate>, attempted: set<int>)
    requires ModelOk(x.image, x.model, x.base) && CodeShapeOk(x.model, code)
  {
    forall p | p in attempted && Present(x, code, p) :: exists c | c in found :: IsFor(x, code, p, c)
  }

  ghost predicate Distinct(found: seq<Candidate>) {
    forall u, v | 0 <= u < v < |found| :: found[u] != found[v]
  }

  /** A candidate belongs to one location only. */
  lemma IsForInjective(x: Context, code: Template, q: int, c: Candidate)
    requires ModelOk(x.image, x.model, x.base) && CodeShapeOk(x.model, code)
    requires IsFor(x, code, q, c)
    ensures forall p | IsFor(x, code, p, c) :: p == q
  {
    NormalizedIsFunctional(c);
    assert Binding(code.symbol, q) in Elems(c);
    forall p | IsFor(x, code, p, c) ensures p == q {
      assert Binding(code.symbol, p) in Elems(c);
    }
  }

  lemma FoundExtends(x: Context, code: Template, found: seq<Candidate>, attempted: set<int>, rva: int, added: seq<Candidate>)
    requires ModelOk(x.image, x.model, x.base) && CodeShapeOk(x.model, code)
    requires FoundFor(x, code, found, attempted) && rva !in attempted
    requires if Present(x, code, rva) then |added| == 1 && IsFor(x, code, rva, added[0]) else added == []
    ensures FoundFor(x, code, found + added, attempted + {rva})
  {
    if added == [] {
      assert found + added == found;
      StillFound(x, code, found, attempted, rva);
    } else {
      assert found + added == found + [added[0]];
      NewlyFound(x, code, found, attempted, rva, added[0]);
    }
  }

  lemma StillFound(x: Context, code: Template, found: seq<Candidate>, attempted: set<int>, rva: int)
    requires ModelOk(x.image, x.model, x.base) && CodeShapeOk(x.model, code)
    requires FoundFor(x, code, found, attempted) && !Present(x, code, rva)
    ensures FoundFor(x, code, found, attempted + {rva})
  {
  }

  lemma NewlyFound(x: Context, code: Template, found: seq<Candidate>, attempted: set<int>, rva: int, c: Candidate)
    requires ModelOk(x.image, x.model, x.base) && CodeShapeOk(x.model, code)
    requires FoundFor(x, code, found, attempted) && rva !in attempted && IsFor(x, code, rva, c)
    ensures FoundFor(x, code, found + [c], attempted + {rva})
  {
    NewlySound(x, code, found, attempted, rva, c);
    NewlyComplete(x, code, found, attempted, rva, c);
    NewlyDistinct(x, code, found, attempted, rva, c);
  }

  lemma NewlySound(x: Context, code: Template, found: seq<Candidate>, attempted: set<int>, rva: int, c: Candidate)
    requires ModelOk(x.image, x.model, x.base) && CodeShapeOk(x.model, code)
    requires FoundSound(x, code, found, attempted) && IsFor(x, code, rva, c)
    ensures FoundSound(x, code, found + [c], attempted + {rva})
  {
    forall d | d in found + [c] ensures exists p | p in attempted + {rva} :: IsFor(x, code, p, d) {
      if d in found {
        var p :| p in attempted && IsFor(x, code, p, d);
        assert p in attempted + {rva};
      } else {
        assert rva in attempted + {rva};
      }
    }
  }

  lemma NewlyComplete(x: Context, code: Template, found: seq<Candidate>, attempted: set<int>, rva: int, c: Candidate)
    requires ModelOk(x.image, x.model, x.base) && CodeShapeOk(x.model, code)
    requires FoundComplete(x, code, found, attempted) && IsFor(x, code, rva, c)
    ensures FoundComplete(x, code, found + [c], attempted + {rva})
  {
    forall p | p in attempted + {rva} && Present(x, code, p) ensures exists d | d in found + [c] :: IsFor(x, code, p, d) {
      if p in attempted {
        var d :| d in found && IsFor(x, code, p, d);
        assert d in found + [c];
      } else {
        assert c in found + [c];
      }
    }
  }

  lemma NewlyDistinct(x: Context, code: Template, found: seq<Candidate>, attempted: set<int>, rva: int, c: Candidate)
    requires ModelOk(x.image, x.model, x.base) && CodeShapeOk(x.model, code)
    requires FoundSound(x, code, found, attempted) && Distinct(found) && rva !in attempted && IsFor(x, code, rva, c)
    ensures Distinct(found + [c])
  {
    IsForInjective(x, code, rva, c);
    assert c !in found;
  }

  ghost predicate Added(x: Context, code: Template, attempted: set<int>, rva: int, added: seq<Candidate>)
    requires ModelOk(x.image, x.model, x.base) && CodeShapeOk(x.model, code)
  {
    if rva in attempted then added == []
    else if Present(x, code, rva) then |added| == 1 && IsFor(x, code, rva, added[0])
    else added == []
  }

  // ----- scanning static code -----

  /** The variants of one symbol, in the order they are declared. */
  function VariantsOf(variants: seq<Template>, symbol: nat): seq<Template> {
    if variants == [] then [] else
      var last := variants[|variants| - 1];
      VariantsOf(variants[..|variants| - 1], symbol) + if last.symbol == symbol then [last] else []
  }

  /** A template's shapes: the declared one, then its variants. */
  function DeclaredShapes(model: Model, i: nat, variants: seq<Template>): seq<Template>
    requires i < |model.code|
  {
    [model.code[i]] + VariantsOf(variants, model.code[i].symbol)
  }

  function RowCodes(row: seq<Body>): seq<Template> {
    seq(|row|, b requires 0 <= b < |row| => row[b].code)
  }

  ghost predicate RowsComplete(model: Model, rows: seq<seq<Body>>, variants: seq<Template>) {
    |rows| == |model.code| && forall i | 0 <= i < |rows| :: RowCodes(rows[i]) == DeclaredShapes(model, i, variants)
  }

  lemma OneMoreVariant(model: Model, rows: seq<seq<Body>>, n: nat, t: nat, body: Body)
    requires n < |model.variants| && RowsComplete(model, rows, model.variants[..n]) && t < |rows|
    requires body.code == model.variants[n] && forall i | 0 <= i < |rows| :: model.code[i].symbol == body.code.symbol <==> i == t
    ensures RowsComplete(model, rows[t := rows[t] + [body]], model.variants[..n + 1])
  {
    assert model.variants[..n + 1][..n] == model.variants[..n];
    var grown := rows[t := rows[t] + [body]];
    forall i | 0 <= i < |grown| ensures RowCodes(grown[i]) == DeclaredShapes(model, i, model.variants[..n + 1]) {
      assert RowCodes(rows[i]) == DeclaredShapes(model, i, model.variants[..n]);
      assert RowCodes(rows[t] + [body]) == RowCodes(rows[t]) + [body.code];
    }
  }

  lemma NoVariants(model: Model, rows: seq<seq<Body>>)
    requires |rows| == |model.code| && forall i | 0 <= i < |rows| :: |rows[i]| == 1 && rows[i][0].code == model.code[i]
    ensures RowsComplete(model, rows, [])
  {
    forall i | 0 <= i < |rows| ensures RowCodes(rows[i]) == DeclaredShapes(model, i, []) {
      assert RowCodes(rows[i]) == [model.code[i]];
    }
  }

  ghost predicate Listed(index: map<nat, seq<(nat, nat)>>, longest: nat, i: nat, b: nat, body: Body) {
    && 7 <= body.seedSize <= longest && body.seedOffset + body.seedSize <= |body.code.bytes|
    && SeedKey(body) in index && (i, b) in index[SeedKey(body)]
  }

  function SeedKey(body: Body): nat
    requires 7 <= body.seedSize && body.seedOffset + body.seedSize <= |body.code.bytes|
  {
    Key(body.code.bytes[body.seedOffset..body.seedOffset + 4])
  }

  lemma AddedFound(x: Context, code: Template, found: seq<Candidate>, attempted: set<int>, rva: int, added: seq<Candidate>)
    requires ModelOk(x.image, x.model, x.base) && CodeShapeOk(x.model, code)
    requires FoundFor(x, code, found, attempted) && Added(x, code, attempted, rva, added)
    ensures FoundFor(x, code, found + added, attempted + {rva})
  {
    if rva in attempted {
      assert found + added == found && attempted + {rva} == attempted;
    } else {
      FoundExtends(x, code, found, attempted, rva, added);
    }
  }

  ghost predicate Grew(before: seq<seq<set<int>>>, after: seq<seq<set<int>>>) {
    |before| == |after| && (forall i | 0 <= i < |before| :: |before[i]| == |after[i]|) &&
    forall i, b | 0 <= i < |before| && 0 <= b < |before[i]| :: before[i][b] <= after[i][b]
  }

  // ----- counting -----

  function RowTally(row: seq<set<int>>): nat {
    if row == [] then 0 else RowTally(row[..|row| - 1]) + |row[|row| - 1]|
  }

  /** How many (shape, location) pairs a table of attempts holds. */
  function Tally(rows: seq<seq<set<int>>>): nat {
    if rows == [] then 0 else Tally(rows[..|rows| - 1]) + RowTally(rows[|rows| - 1])
  }

  lemma {:induction false} RowTallyPut(row: seq<set<int>>, b: nat, rva: int)
    requires b < |row| && rva !in row[b]
    ensures RowTally(row[b := row[b] + {rva}]) == RowTally(row) + 1
  {
    var n, put := |row| - 1, row[b := row[b] + {rva}];
    if b < n {
      RowTallyPut(row[..n], b, rva);
      assert put[..n] == row[..n][b := row[..n][b] + {rva}];
    } else {
      assert put[..n] == row[..n];
    }
  }

  lemma {:induction false} TallyPut(rows: seq<seq<set<int>>>, i: nat, b: nat, rva: int)
    requires i < |rows| && b < |rows[i]| && rva !in rows[i][b]
    ensures Tally(Put(rows, i, b, rows[i][b] + {rva})) == Tally(rows) + 1
  {
    var n, put := |rows| - 1, Put(rows, i, b, rows[i][b] + {rva});
    if i < n {
      TallyPut(rows[..n], i, b, rva);
      assert put[..n] == Put(rows[..n], i, b, rows[..n][i][b] + {rva});
    } else {
      RowTallyPut(rows[i], b, rva);
      assert put[..n] == rows[..n];
    }
  }

  lemma {:induction false} TallyNothing(rows: seq<seq<set<int>>>)
    requires forall i, b | 0 <= i < |rows| && 0 <= b < |rows[i]| :: rows[i][b] == {}
    ensures Tally(rows) == 0
  {
    if rows != [] {
      TallyNothing(rows[..|rows| - 1]);
      RowTallyNothing(rows[|rows| - 1]);
    }
  }

  lemma {:induction false} RowTallyNothing(row: seq<set<int>>)
    requires forall b | 0 <= b < |row| :: row[b] == {}
    ensures RowTally(row) == 0
  {
    if row != [] { RowTallyNothing(row[..|row| - 1]); }
  }

  /** The shape is present at more than 64 places. */
  ghost predicate Plenty(x: Context, code: Template) {
    ModelOk(x.image, x.model, x.base) && CodeShapeOk(x.model, code) &&
    exists places: set<int> :: |places| > 64 && forall p | p in places :: Present(x, code, p)
  }

  /** Different candidates stand for different places. */
  lemma {:induction false} FoundPlaces(x: Context, code: Template, found: seq<Candidate>, attempted: set<int>, n: nat) returns (places: set<int>)
    requires ModelOk(x.image, x.model, x.base) && CodeShapeOk(x.model, code)
    requires FoundSound(x, code, found, attempted) && Distinct(found) && n <= |found|
    ensures |places| == n && places <= attempted
    ensures forall p | p in places :: Present(x, code, p) && exists k | 0 <= k < n :: IsFor(x, code, p, found[k])
  {
    hide IsFor, Present, ModelOk, CodeShapeOk;
    if n == 0 {
      places := {};
    } else {
      places := FoundPlaces(x, code, found, attempted, n - 1);
      assert found[n - 1] in found;
      var p :| p in attempted && IsFor(x, code, p, found[n - 1]);
      if p in places {
        var k :| 0 <= k < n - 1 && IsFor(x, code, p, found[k]);
        OneCandidate(x, code, p, found[k], found[n - 1]);
      }
      OneCandidate(x, code, p, found[n - 1], found[n - 1]);
      places := places + {p};
    }
  }

  lemma OneCandidate(x: Context, code: Template, p: int, c: Candidate, d: Candidate)
    requires ModelOk(x.image, x.model, x.base) && CodeShapeOk(x.model, code) && IsFor(x, code, p, c) && IsFor(x, code, p, d)
    ensures c == d && Present(x, code, p)
  {
    hide Present;
    NormalizedUnique(c, d);
  }

  /** Sixty-four candidates and one more place. */
  lemma Crowding(x: Context, code: Template, found: seq<Candidate>, attempted: set<int>, rva: int)
    requires ModelOk(x.image, x.model, x.base) && CodeShapeOk(x.model, code) && FoundFor(x, code, found, attempted)
    requires |found| >= 64 && rva !in attempted && Present(x, code, rva)
    ensures Plenty(x, code)
  {
    hide Present, IsFor, FoundComplete, ModelOk, CodeShapeOk;
    var places := FoundPlaces(x, code, found, attempted, |found|);
    var all := places + {rva};
    assert |all| > 64 && forall p | p in all :: Present(x, code, p);
  }

  // ----- adopting the first present shape -----

  /** The stored candidates are exactly the locations where the shape is present, each once. */
  ghost predicate ExactlyFound(x: Context, code: Template, cs: seq<Candidate>)
    requires ModelOk(x.image, x.model, x.base) && CodeShapeOk(x.model, code)
  {
    DomainSound(x, code, cs) && DomainFull(x, code, cs) && Distinct(cs)
  }

  ghost predicate DomainSound(x: Context, code: Template, cs: seq<Candidate>)
    requires ModelOk(x.image, x.model, x.base) && CodeShapeOk(x.model, code)
  {
    forall c | c in cs :: exists p :: IsFor(x, code, p, c)
  }

  ghost predicate DomainFull(x: Context, code: Template, cs: seq<Candidate>)
    requires ModelOk(x.image, x.model, x.base) && CodeShapeOk(x.model, code)
  {
    forall p | Present(x, code, p) :: exists c | c in cs :: IsFor(x, code, p, c)
  }

  ghost predicate Nowhere(x: Context, code: Template)
    requires ModelOk(x.image, x.model, x.base) && CodeShapeOk(x.model, code)
  {
    forall p :: !Present(x, code, p)
  }

  ghost predicate ShapesOk(x: Context, shapes: seq<Body>) {
    ModelOk(x.image, x.model, x.base) && forall b | 0 <= b < |shapes| :: BodyOk(x.model, shapes[b])
  }

  /** A scanned template's domain is exact for the first shape the image holds anywhere. */
  ghost predicate Settled(x: Context, shapes: seq<Body>, sel: nat, domain: seq<Candidate>)
    requires ShapesOk(x, shapes) && sel < |shapes|
  {
    && domain != [] && ExactlyFound(x, shapes[sel].code, domain)
    && forall b | 0 <= b < sel :: Nowhere(x, shapes[b].code)
  }

  /** The naive scan: each shape's found list is exact. */
  ghost predicate RowExact(x: Context, shapes: seq<Body>, row: seq<seq<Candidate>>) {
    ShapesOk(x, shapes) && |row| == |shapes| && forall b | 0 <= b < |shapes| :: ExactlyFound(x, shapes[b].code, row[b])
  }

  lemma FoundIsExact(x: Context, code: Template, cs: seq<Candidate>, attempted: set<int>)
    requires ModelOk(x.image, x.model, x.base) && CodeShapeOk(x.model, code) && FoundFor(x, code, cs, attempted)
    requires forall p | Present(x, code, p) :: p in attempted
    ensures ExactlyFound(x, code, cs)
  {
    forall c | c in cs ensures exists p :: IsFor(x, code, p, c) {
      var p :| p in attempted && IsFor(x, code, p, c);
    }
  }

  lemma EmptyRows(x: Context, shapes: seq<Body>, row: seq<seq<Candidate>>, b: nat)
    requires RowExact(x, shapes, row) && b <= |row|
    requires forall k | 0 <= k < b :: row[k] == []
    ensures forall k | 0 <= k < b :: Nowhere(x, shapes[k].code)
  {
    forall k | 0 <= k < b ensures Nowhere(x, shapes[k].code) {
      assert ExactlyFound(x, shapes[k].code, row[k]);
    }
  }

  /** None of the shapes is anywhere in the image. */
  ghost predicate AllNowhere(x: Context, shapes: seq<Body>) {
    ShapesOk(x, shapes) && forall b | 0 <= b < |shapes| :: Nowhere(x, shapes[b].code)
  }

  /** Then no assignment is consistent with any choice of shapes. */
  lemma NowhereRefutes(x: Context, shapes: seq<Body>, codes: seq<Template>, i: nat, rvas: seq<int>)
    requires AllNowhere(x, shapes) && i < |codes| && exists b | 0 <= b < |shapes| :: codes[i] == shapes[b].code
    ensures !Consistent(x, codes, rvas)
  {
    var b :| 0 <= b < |shapes| && codes[i] == shapes[b].code;
    assert Nowhere(x, shapes[b].code);
    assert Consistent(x, codes, rvas) ==> ShapeAt(x, codes[i], rvas);
  }

  // ----- inferring short templates -----

  /** A short template's domain holds its adopted shape at every offered location where that is present;
      while it is empty no shape is present at any offered location. */
  ghost predicate Inferred(x: Context, shapes: seq<Body>, sel: nat, domain: seq<Candidate>, offered: set<int>)
    requires ShapesOk(x, shapes) && sel < |shapes|
  {
    && DomainSound(x, shapes[sel].code, domain)
    && (forall p | p in offered && Present(x, shapes[sel].code, p) :: exists c | c in domain :: IsFor(x, shapes[sel].code, p, c))
    && (domain == [] ==> forall b | 0 <= b < |shapes| :: Absent(x, shapes[b].code, offered))
  }

  ghost predicate Absent(x: Context, code: Template, offered: set<int>)
    requires ModelOk(x.image, x.model, x.base) && CodeShapeOk(x.model, code)
  {
    forall p | p in offered :: !Present(x, code, p)
  }

  /** What holds of one template's row: exact domain if scanned, accounted-for offers if inferred. */
  ghost predicate RowInv(x: Context, shapes: seq<Body>, sel: nat, domain: seq<Candidate>,
                                foundRow: seq<seq<Candidate>>, attemptedRow: seq<set<int>>, offered: set<int>)
  {
    && ShapesOk(x, shapes) && sel < |shapes| == |foundRow| == |attemptedRow|
    && if shapes[0].discoverable then Settled(x, shapes, sel, domain)
       else
         Inferred(x, shapes, sel, domain, offered) &&
         forall b | 0 <= b < |shapes| :: foundRow[b] == [] && attemptedRow[b] <= offered
  }

  /** The row invariant of the templates before n. */
  ghost predicate RowsDone(x: Context, rows: seq<seq<Body>>, sel: seq<nat>, doms: seq<seq<Candidate>>,
                           found: seq<seq<seq<Candidate>>>, tried: seq<seq<set<int>>>, offers: seq<set<int>>, n: nat)
    requires n <= |rows| == |sel| == |doms| == |found| == |tried| == |offers|
  {
    forall j | 0 <= j < n :: RowInv(x, rows[j], sel[j], doms[j], found[j], tried[j], offers[j])
  }

  lemma OneMoreRow(x: Context, rows: seq<seq<Body>>, sel: seq<nat>, sel': seq<nat>, doms: seq<seq<Candidate>>, doms': seq<seq<Candidate>>,
                   found: seq<seq<seq<Candidate>>>, found': seq<seq<seq<Candidate>>>, tried: seq<seq<set<int>>>, offers: seq<set<int>>, n: nat)
    requires n < |rows| == |sel| == |doms| == |found| == |tried| == |offers| == |sel'| == |doms'| == |found'|
    requires RowsDone(x, rows, sel, doms, found, tried, offers, n)
    requires forall j | 0 <= j < |rows| && j != n :: sel'[j] == sel[j] && doms'[j] == doms[j] && found'[j] == found[j]
    requires RowInv(x, rows[n], sel'[n], doms'[n], found'[n], tried[n], offers[n])
    ensures RowsDone(x, rows, sel', doms', found', tried, offers, n + 1)
  {
    hide RowInv;
  }

  ghost predicate NotNew(x: Context, code: Template, offered: set<int>, rva: int)
    requires ModelOk(x.image, x.model, x.base) && CodeShapeOk(x.model, code)
  {
    rva in offered || !Present(x, code, rva)
  }

  /** No shape was adopted: the enlarged set of offered locations is still accounted for. */
  lemma NoneAdopted(x: Context, shapes: seq<Body>, sel: nat, domain: seq<Candidate>, offered: set<int>, rva: int)
    requires ShapesOk(x, shapes) && sel < |shapes| && Inferred(x, shapes, sel, domain, offered)
    requires NotNew(x, shapes[sel].code, offered, rva)
    requires domain == [] ==> forall b | 0 <= b < |shapes| :: NotNew(x, shapes[b].code, offered, rva)
    ensures Inferred(x, shapes, sel, domain, offered + {rva})
  {
    if domain == [] {
      forall b | 0 <= b < |shapes| ensures Absent(x, shapes[b].code, offered + {rva}) {
        assert Absent(x, shapes[b].code, offered);
      }
    }
  }

  /** One shape was adopted, or the settled shape found again, at the offered location. */
  lemma OneAdopted(x: Context, shapes: seq<Body>, sel: nat, domain: seq<Candidate>, offered: set<int>, rva: int, b: nat, c: Candidate)
    requires ShapesOk(x, shapes) && sel < |shapes| && b < |shapes| && Inferred(x, shapes, sel, domain, offered)
    requires domain == [] || b == sel
    requires IsFor(x, shapes[b].code, rva, c)
    ensures Inferred(x, shapes, b, domain + [c], offered + {rva})
  {
    var code := shapes[b].code;
    assert domain == [] ==> Absent(x, code, offered);
    forall d | d in domain + [c] ensures exists p :: IsFor(x, code, p, d) {
      if d in domain { var p :| IsFor(x, code, p, d); }
    }
    forall p | p in offered + {rva} && Present(x, code, p) ensures exists d | d in domain + [c] :: IsFor(x, code, p, d) {
      if p in offered {
        var d :| d in domain && IsFor(x, code, p, d);
        assert d in domain + [c];
      } else {
        assert c in domain + [c];
      }
    }
  }

  lemma ShortRow(x: Context, shapes: seq<Body>, sel: nat, domain: seq<Candidate>,
                        foundRow: seq<seq<Candidate>>, attemptedRow: seq<set<int>>, offered: set<int>)
    requires RowInv(x, shapes, sel, domain, foundRow, attemptedRow, offered) && !shapes[0].discoverable
    ensures ShapesOk(x, shapes) && sel < |shapes| == |foundRow| == |attemptedRow|
    ensures Inferred(x, shapes, sel, domain, offered)
    ensures forall b | 0 <= b < |shapes| :: foundRow[b] == [] && attemptedRow[b] <= offered
  {
  }

  lemma NoneAdoptedRow(x: Context, shapes: seq<Body>, sel: nat, domain: seq<Candidate>,
                              foundRow: seq<seq<Candidate>>, attemptedRow: seq<set<int>>, offered: set<int>, rva: int)
    requires ShapesOk(x, shapes) && sel < |shapes| == |foundRow| == |attemptedRow| && !shapes[0].discoverable
    requires Inferred(x, shapes, sel, domain, offered)
    requires forall b | 0 <= b < |shapes| :: foundRow[b] == [] && attemptedRow[b] <= offered + {rva}
    requires forall k | 0 <= k < |shapes| && (domain == [] || k == sel) :: NotNew(x, shapes[k].code, offered, rva)
    ensures RowInv(x, shapes, sel, domain, foundRow, attemptedRow, offered + {rva})
  {
    hide DomainSound, Absent;
    NoneAdopted(x, shapes, sel, domain, offered, rva);
  }

  lemma OneAdoptedRow(x: Context, shapes: seq<Body>, sel: nat, domain: seq<Candidate>,
                             foundRow: seq<seq<Candidate>>, attemptedRow: seq<set<int>>, offered: set<int>, rva: int, b: nat, c: Candidate)
    requires ShapesOk(x, shapes) && sel < |shapes| == |foundRow| == |attemptedRow| && !shapes[0].discoverable
    requires Inferred(x, shapes, sel, domain, offered)
    requires forall k | 0 <= k < |shapes| :: foundRow[k] == [] && attemptedRow[k] <= offered + {rva}
    requires b < |shapes| && (domain == [] || b == sel) && IsFor(x, shapes[b].code, rva, c)
    ensures RowInv(x, shapes, b, domain + [c], foundRow, attemptedRow, offered + {rva})
  {
    hide DomainSound, Absent;
    OneAdopted(x, shapes, sel, domain, offered, rva, b, c);
  }

  ghost predicate Extends(before: seq<seq<Candidate>>, after: seq<seq<Candidate>>, i: nat) {
    |before| == |after| && i < |after| && before[i] <= after[i] &&
    forall j | 0 <= j < |after| && j != i :: before[j] == after[j]
  }

  ghost predicate Keeps(before: seq<nat>, after: seq<nat>, i: nat) {
    |before| == |after| && forall j | 0 <= j < |after| && j != i :: before[j] == after[j]
  }

  /** Adopted shapes of templates whose domains are nonempty. */
  ghost function Codes(rows: seq<seq<Body>>, sel: seq<nat>): (r: seq<Template>)
    requires |sel| == |rows| && forall i | 0 <= i < |rows| :: sel[i] < |rows[i]|
    ensures |r| == |rows|
  {
    seq(|rows|, i requires 0 <= i < |rows| => rows[i][sel[i]].code)
  }

  /** The k-th template that became nonempty was scanned for, named by a fixed binding, or named by an earlier one. */
  ghost predicate Reached(x: Context, codes: seq<Template>, scanned: seq<bool>, order: seq<nat>, k: nat)
    requires |codes| == |scanned| == |x.model.code| && k < |order| && forall j | 0 <= j < |order| :: order[j] < |codes|
  {
    || scanned[order[k]]
    || (exists b | b in x.fixed :: b.symbol == x.model.code[order[k]].symbol)
    || (exists j | 0 <= j < k :: Binds(x, codes[order[j]], x.model.code[order[k]].symbol))
  }

  ghost predicate ReachInv(x: Context, codes: seq<Template>, scanned: seq<bool>, doms: seq<seq<Candidate>>, order: seq<nat>)
  {
    && |codes| == |scanned| == |doms| == |x.model.code|
    && (forall j | 0 <= j < |order| :: order[j] < |codes| && doms[order[j]] != [])
    && (forall k | 0 <= k < |order| :: Reached(x, codes, scanned, order, k))
    && (forall i | 0 <= i < |doms| && doms[i] != [] :: i in order)
  }

  ghost function Scanned(rows: seq<seq<Body>>): (r: seq<bool>)
    requires forall i | 0 <= i < |rows| :: |rows[i]| > 0
    ensures |r| == |rows|
  {
    seq(|rows|, i requires 0 <= i < |rows| => rows[i][0].discoverable)
  }

  /** Extending the order by a newly nonempty template keeps every earlier reason. */
  lemma ReachExtends(x: Context, codes: seq<Template>, codes': seq<Template>, scanned: seq<bool>,
                            doms: seq<seq<Candidate>>, doms': seq<seq<Candidate>>, order: seq<nat>, i: nat)
    requires ReachInv(x, codes, scanned, doms, order) && |codes'| == |codes| && |doms'| == |doms| && i < |codes|
    requires forall j | 0 <= j < |codes| && j != i :: codes'[j] == codes[j] && doms'[j] == doms[j]
    requires doms[i] != [] ==> codes'[i] == codes[i] && doms'[i] != []
    requires Reached(x, codes, scanned, order + [i], |order|)
    ensures ReachInv(x, codes', scanned, doms', if doms[i] == [] && doms'[i] != [] then order + [i] else order)
  {
    var order' := if doms[i] == [] && doms'[i] != [] then order + [i] else order;
    forall k | 0 <= k < |order'| ensures order'[k] < |codes| && doms'[order'[k]] != [] {
      if k < |order| { assert doms[order[k]] != []; }
    }
    forall k | 0 <= k < |order'| ensures Reached(x, codes', scanned, order', k) {
      if k < |order| {
        assert order'[k] == order[k] && Reached(x, codes, scanned, order, k);
        if j :| 0 <= j < k && Binds(x, codes[order[j]], x.model.code[order[k]].symbol) {
          assert order'[j] == order[j] && codes'[order[j]] == codes[order[j]];
        }
      } else if j :| 0 <= j < k && Binds(x, codes[(order + [i])[j]], x.model.code[i].symbol) {
        assert order'[j] == order[j] && codes'[order[j]] == codes[order[j]];
      }
    }
    forall k | 0 <= k < |doms'| && doms'[k] != [] ensures k in order' {
      if k != i || doms[i] != [] { assert k in order; } else { assert order'[|order|] == i; }
    }
  }

  ghost predicate EmptyRow(foundRow: seq<seq<Candidate>>, attemptedRow: seq<set<int>>) {
    |foundRow| == |attemptedRow| && forall b | 0 <= b < |foundRow| :: foundRow[b] == [] && attemptedRow[b] == {}
  }

  lemma AppendMember(s: seq<nat>, i: nat)
    ensures i in s + [i]
  {
    assert (s + [i])[|s|] == i;
  }

  lemma SettledRow(x: Context, shapes: seq<Body>, sel: nat, domain: seq<Candidate>,
                          foundRow: seq<seq<Candidate>>, attemptedRow: seq<set<int>>, offered: set<int>)
    requires ShapesOk(x, shapes) && sel < |shapes| == |foundRow| == |attemptedRow|
    requires shapes[0].discoverable && Settled(x, shapes, sel, domain)
    ensures domain != [] && RowInv(x, shapes, sel, domain, foundRow, attemptedRow, offered)
  {
  }

  lemma UntouchedRow(x: Context, shapes: seq<Body>, sel: nat, foundRow: seq<seq<Candidate>>, attemptedRow: seq<set<int>>)
    requires ShapesOk(x, shapes) && sel < |shapes| == |foundRow| == |attemptedRow|
    requires !shapes[0].discoverable
    requires EmptyRow(foundRow, attemptedRow)
    ensures RowInv(x, shapes, sel, [], foundRow, attemptedRow, {})
  {
  }

  // ----- the inference passes -----

  /** How one stretch of inference moves the graph: domains and offers only grow, and an unchanged count means no change. */
  ghost predicate Step(d0: seq<seq<Candidate>>, s0: seq<nat>, v0: seq<set<int>>, n0: nat,
                              d1: seq<seq<Candidate>>, s1: seq<nat>, v1: seq<set<int>>, n1: nat)
  {
    && |d0| == |s0| == |v0| == |d1| == |s1| == |v1| && n0 <= n1
    && (forall i | 0 <= i < |v0| :: v0[i] <= v1[i])
    && (forall i | 0 <= i < |d0| :: d0[i] <= d1[i] && (d0[i] != [] ==> s1[i] == s0[i]))
    && (n0 == n1 ==> d0 == d1 && s0 == s1)
    && Total(d1) - Total(d0) == n1 - n0
  }

  /** The location this binding names has been offered to the short template it belongs to, if any. */
  ghost predicate Handled(templates: seq<int>, scanned: seq<bool>, offers: seq<set<int>>, b: Binding)
    requires |offers| == |scanned| && forall s | 0 <= s < |templates| && templates[s] != UNKNOWN :: 0 <= templates[s] < |scanned|
  {
    b.symbol < |templates| &&
    (templates[b.symbol] != UNKNOWN && !scanned[templates[b.symbol]] ==> b.rva in offers[templates[b.symbol]])
  }

  /** Why a binding may be offered: it is fixed, or an already nonempty template's shape names its symbol. */
  ghost predicate Justified(x: Context, codes: seq<Template>, order: seq<nat>, b: Binding) {
    || b in x.fixed
    || (exists j | 0 <= j < |order| :: order[j] < |codes| && Binds(x, codes[order[j]], b.symbol))
  }

  ghost predicate AllJustified(x: Context, codes: seq<Template>, order: seq<nat>, c: Candidate) {
    forall k | 0 <= k < |c| :: c[k].symbol < |x.model.symbols| && Justified(x, codes, order, c[k])
  }

  ghost predicate EachJustified(x: Context, codes: seq<Template>, order: seq<nat>, cs: seq<Candidate>) {
    forall c | c in cs :: AllJustified(x, codes, order, c)
  }

  lemma OneJustified(x: Context, codes: seq<Template>, order: seq<nat>, cs: seq<Candidate>, n: nat)
    requires EachJustified(x, codes, order, cs) && n < |cs|
    ensures AllJustified(x, codes, order, cs[n])
  {
    assert cs[n] in cs;
  }

  lemma AdoptIsStep(d0: seq<seq<Candidate>>, s0: seq<nat>, v0: seq<set<int>>, n0: nat,
                           d1: seq<seq<Candidate>>, s1: seq<nat>, n1: nat, i: nat, rva: int)
    requires |d0| == |s0| == |v0| && i < |v0| && n0 <= n1 && Extends(d0, d1, i) && Keeps(s0, s1, i)
    requires d0[i] != [] ==> s1 == s0
    requires n0 == n1 ==> d0 == d1 && s0 == s1
    requires n1 - n0 == |d1[i]| - |d0[i]|
    ensures Step(d0, s0, v0, n0, d1, s1, v0[i := v0[i] + {rva}], n1)
  {
    assert d1 == d0[i := d1[i]];
    TotalUpdate(d0, i, d1[i]);
  }

  lemma FirstJustified(x: Context, codes: seq<Template>, order: seq<nat>, c: Candidate, k: nat)
    requires AllJustified(x, codes, order, c) && k < |c|
    ensures c[k].symbol < |x.model.symbols| && Justified(x, codes, order, c[k])
  {
  }

  lemma StepTrans(d0: seq<seq<Candidate>>, s0: seq<nat>, v0: seq<set<int>>, n0: nat,
                         d1: seq<seq<Candidate>>, s1: seq<nat>, v1: seq<set<int>>, n1: nat,
                         d2: seq<seq<Candidate>>, s2: seq<nat>, v2: seq<set<int>>, n2: nat)
    requires Step(d0, s0, v0, n0, d1, s1, v1, n1) && Step(d1, s1, v1, n1, d2, s2, v2, n2)
    ensures Step(d0, s0, v0, n0, d2, s2, v2, n2)
  {
    forall i | 0 <= i < |d0| ensures d0[i] <= d2[i] && (d0[i] != [] ==> s2[i] == s0[i]) {
      assert d0[i] <= d1[i] && d1[i] <= d2[i];
    }
  }

  /** What justified an offer still does after the graph has grown. */
  lemma StillJustified(x: Context, rows: seq<seq<Body>>, d0: seq<seq<Candidate>>, s0: seq<nat>, s1: seq<nat>,
                              order: seq<nat>, order': seq<nat>, c: Candidate)
    requires |s0| == |s1| == |rows| == |d0| && forall i | 0 <= i < |rows| :: s0[i] < |rows[i]| && s1[i] < |rows[i]|
    requires order <= order' && forall j | 0 <= j < |order| :: order[j] < |d0| && d0[order[j]] != []
    requires forall i | 0 <= i < |d0| && d0[i] != [] :: s1[i] == s0[i]
    requires AllJustified(x, Codes(rows, s0), order, c)
    ensures AllJustified(x, Codes(rows, s1), order', c)
  {
    hide Binds;
    forall k | 0 <= k < |c| ensures Justified(x, Codes(rows, s1), order', c[k]) {
      assert Justified(x, Codes(rows, s0), order, c[k]);
      if c[k] !in x.fixed {
        var j :| 0 <= j < |order| && order[j] < |rows| && Binds(x, Codes(rows, s0)[order[j]], c[k].symbol);
        assert order'[j] == order[j] && Codes(rows, s1)[order[j]] == Codes(rows, s0)[order[j]];
      }
    }
  }

  ghost predicate HandledAll(templates: seq<int>, scanned: seq<bool>, offers: seq<set<int>>, c: Candidate, n: nat)
    requires |offers| == |scanned| && forall s | 0 <= s < |templates| && templates[s] != UNKNOWN :: 0 <= templates[s] < |scanned|
    requires n <= |c|
  {
    forall k | 0 <= k < n :: Handled(templates, scanned, offers, c[k])
  }

  lemma NothingOffered(templates: seq<int>, scanned: seq<bool>,
                              d: seq<seq<Candidate>>, s: seq<nat>, v: seq<set<int>>, n: nat, c: Candidate)
    requires |d| == |s| == |v| == |scanned|
    requires forall k | 0 <= k < |templates| && templates[k] != UNKNOWN :: 0 <= templates[k] < |scanned|
    ensures Step(d, s, v, n, d, s, v, n) && HandledAll(templates, scanned, v, c, 0)
  {
  }

  lemma OneMoreOffered(templates: seq<int>, scanned: seq<bool>, v0: seq<set<int>>, v1: seq<set<int>>, c: Candidate, n: nat,
                              d0: seq<seq<Candidate>>, s0: seq<nat>, n0: nat, d1: seq<seq<Candidate>>, s1: seq<nat>, n1: nat)
    requires |v0| == |v1| == |scanned| && n < |c|
    requires forall k | 0 <= k < |templates| && templates[k] != UNKNOWN :: 0 <= templates[k] < |scanned|
    requires Step(d0, s0, v0, n0, d1, s1, v1, n1)
    requires HandledAll(templates, scanned, v0, c, n) && Handled(templates, scanned, v1, c[n])
    ensures HandledAll(templates, scanned, v1, c, n + 1)
    ensures |d0| == |d1| == |s0| == |s1| && forall i | 0 <= i < |d0| && d0[i] != [] :: s1[i] == s0[i]
  {
    forall k | 0 <= k <= n ensures Handled(templates, scanned, v1, c[k]) {
      assert k < n ==> Handled(templates, scanned, v0, c[k]);
    }
  }

  ghost predicate DomainHandled(templates: seq<int>, scanned: seq<bool>, offers: seq<set<int>>, cs: seq<Candidate>, n: nat)
    requires |offers| == |scanned| && forall s | 0 <= s < |templates| && templates[s] != UNKNOWN :: 0 <= templates[s] < |scanned|
    requires n <= |cs|
  {
    forall k | 0 <= k < n :: HandledAll(templates, scanned, offers, cs[k], |cs[k]|)
  }

  lemma StillHandled(templates: seq<int>, scanned: seq<bool>, v0: seq<set<int>>, v1: seq<set<int>>, cs: seq<Candidate>, n: nat)
    requires |v0| == |v1| == |scanned| && forall s | 0 <= s < |templates| && templates[s] != UNKNOWN :: 0 <= templates[s] < |scanned|
    requires (forall i | 0 <= i < |v0| :: v0[i] <= v1[i]) && n <= |cs| && DomainHandled(templates, scanned, v0, cs, n)
    ensures DomainHandled(templates, scanned, v1, cs, n)
  {
    forall k | 0 <= k < n ensures HandledAll(templates, scanned, v1, cs[k], |cs[k]|) {
      assert HandledAll(templates, scanned, v0, cs[k], |cs[k]|);
    }
  }

  lemma RowSound(x: Context, shapes: seq<Body>, sel: nat, domain: seq<Candidate>,
                        foundRow: seq<seq<Candidate>>, attemptedRow: seq<set<int>>, offered: set<int>)
    requires RowInv(x, shapes, sel, domain, foundRow, attemptedRow, offered)
    ensures ShapesOk(x, shapes) && sel < |shapes| && DomainSound(x, shapes[sel].code, domain)
  {
  }

  /** Candidates name valid symbols, all of them named by the adopted shape. */
  lemma SoundBinds(x: Context, code: Template, cs: seq<Candidate>, c: Candidate, b: Binding)
    requires ModelOk(x.image, x.model, x.base) && CodeShapeOk(x.model, code) && DomainSound(x, code, cs)
    requires c in cs && b in c
    ensures b.symbol < |x.model.symbols| && Binds(x, code, b.symbol)
  {
    var p :| IsFor(x, code, p, c);
    assert b in Elems(c);
    BindingValid(x, code, p, b);
    BindsIsStatic(x, code, p, b.symbol);
  }

  lemma NoneHandled(templates: seq<int>, scanned: seq<bool>,
                           d: seq<seq<Candidate>>, s: seq<nat>, v: seq<set<int>>, n: nat, cs: seq<Candidate>)
    requires |d| == |s| == |v| == |scanned|
    requires forall k | 0 <= k < |templates| && templates[k] != UNKNOWN :: 0 <= templates[k] < |scanned|
    ensures Step(d, s, v, n, d, s, v, n) && DomainHandled(templates, scanned, v, cs, 0)
  {
  }

  lemma OneMoreHandled(templates: seq<int>, scanned: seq<bool>, v0: seq<set<int>>, v1: seq<set<int>>, cs: seq<Candidate>, n: nat,
                              d0: seq<seq<Candidate>>, s0: seq<nat>, n0: nat, d1: seq<seq<Candidate>>, s1: seq<nat>, n1: nat)
    requires |v0| == |v1| == |scanned| && n < |cs|
    requires forall k | 0 <= k < |templates| && templates[k] != UNKNOWN :: 0 <= templates[k] < |scanned|
    requires Step(d0, s0, v0, n0, d1, s1, v1, n1)
    requires DomainHandled(templates, scanned, v0, cs, n) && HandledAll(templates, scanned, v1, cs[n], |cs[n]|)
    ensures DomainHandled(templates, scanned, v1, cs, n + 1)
    ensures |d0| == |d1| == |s0| == |s1| && forall i | 0 <= i < |d0| && d0[i] != [] :: s1[i] == s0[i]
  {
    hide HandledAll;
    StillHandled(templates, scanned, v0, v1, cs, n);
  }

  lemma AllStillJustified(x: Context, rows: seq<seq<Body>>, d0: seq<seq<Candidate>>, s0: seq<nat>, s1: seq<nat>,
                                 order: seq<nat>, order': seq<nat>, cs: seq<Candidate>)
    requires |s0| == |s1| == |rows| == |d0| && forall i | 0 <= i < |rows| :: s0[i] < |rows[i]| && s1[i] < |rows[i]|
    requires order <= order' && forall j | 0 <= j < |order| :: order[j] < |d0| && d0[order[j]] != []
    requires forall i | 0 <= i < |d0| && d0[i] != [] :: s1[i] == s0[i]
    requires EachJustified(x, Codes(rows, s0), order, cs)
    ensures EachJustified(x, Codes(rows, s1), order', cs)
  {
    forall c | c in cs ensures AllJustified(x, Codes(rows, s1), order', c) {
      StillJustified(x, rows, d0, s0, s1, order, order', c);
    }
  }

  /** Every template's domain up to n is handled. */
  ghost predicate Closed(templates: seq<int>, scanned: seq<bool>, offers: seq<set<int>>, doms: seq<seq<Candidate>>, n: nat)
    requires |offers| == |scanned| && forall s | 0 <= s < |templates| && templates[s] != UNKNOWN :: 0 <= templates[s] < |scanned|
    requires n <= |doms|
  {
    forall i | 0 <= i < n :: DomainHandled(templates, scanned, offers, doms[i], |doms[i]|)
  }

  ghost predicate Grown(v0: seq<set<int>>, v1: seq<set<int>>) {
    |v0| == |v1| && forall i | 0 <= i < |v0| :: v0[i] <= v1[i]
  }

  lemma StillClosed(templates: seq<int>, scanned: seq<bool>, v0: seq<set<int>>, v1: seq<set<int>>, doms: seq<seq<Candidate>>, n: nat)
    requires |v0| == |v1| == |scanned| && forall s | 0 <= s < |templates| && templates[s] != UNKNOWN :: 0 <= templates[s] < |scanned|
    requires (forall i | 0 <= i < |v0| :: v0[i] <= v1[i]) && n <= |doms| && Closed(templates, scanned, v0, doms, n)
    ensures Closed(templates, scanned, v1, doms, n)
  {
    forall i | 0 <= i < n ensures DomainHandled(templates, scanned, v1, doms[i], |doms[i]|) {
      StillHandled(templates, scanned, v0, v1, doms[i], |doms[i]|);
    }
  }

  lemma StillHandledAll(templates: seq<int>, scanned: seq<bool>, v0: seq<set<int>>, v1: seq<set<int>>, c: Candidate)
    requires |v0| == |v1| == |scanned| && forall s | 0 <= s < |templates| && templates[s] != UNKNOWN :: 0 <= templates[s] < |scanned|
    requires Grown(v0, v1) && HandledAll(templates, scanned, v0, c, |c|)
    ensures HandledAll(templates, scanned, v1, c, |c|)
  {
    forall k | 0 <= k < |c| ensures Handled(templates, scanned, v1, c[k]) {
      assert Handled(templates, scanned, v0, c[k]);
    }
  }

  // ----- every consistent assignment survives inference -----

  /** The candidates an assignment would choose, one per template. */
  ghost predicate ChoiceFor(x: Context, codes: seq<Template>, rvas: seq<int>, choice: seq<Candidate>)
    requires ModelOk(x.image, x.model, x.base) && Consistent(x, codes, rvas)
  {
    && |choice| == |codes|
    && forall i | 0 <= i < |codes| :: ShapeAt(x, codes[i], rvas) && IsFor(x, codes[i], rvas[codes[i].symbol], choice[i])
  }

  lemma HandledMember(templates: seq<int>, scanned: seq<bool>, offers: seq<set<int>>, doms: seq<seq<Candidate>>,
                             m: nat, c: Candidate, b: Binding)
    requires |offers| == |scanned| && forall s | 0 <= s < |templates| && templates[s] != UNKNOWN :: 0 <= templates[s] < |scanned|
    requires Closed(templates, scanned, offers, doms, |doms|) && m < |doms| && c in doms[m] && b in c
    ensures Handled(templates, scanned, offers, b)
  {
    var n :| 0 <= n < |doms[m]| && doms[m][n] == c;
    assert HandledAll(templates, scanned, offers, doms[m][n], |c|);
  }

  lemma ScannedHolds(x: Context, shapes: seq<Body>, sel: nat, domain: seq<Candidate>,
                            foundRow: seq<seq<Candidate>>, attemptedRow: seq<set<int>>, offered: set<int>, p: int)
    requires RowInv(x, shapes, sel, domain, foundRow, attemptedRow, offered) && shapes[0].discoverable
    requires Present(x, shapes[sel].code, p)
    ensures exists c | c in domain :: IsFor(x, shapes[sel].code, p, c)
  {
  }

  lemma OfferedHolds(x: Context, shapes: seq<Body>, sel: nat, domain: seq<Candidate>,
                            foundRow: seq<seq<Candidate>>, attemptedRow: seq<set<int>>, offered: set<int>, p: int)
    requires RowInv(x, shapes, sel, domain, foundRow, attemptedRow, offered) && !shapes[0].discoverable
    requires p in offered && Present(x, shapes[sel].code, p)
    ensures exists c | c in domain :: IsFor(x, shapes[sel].code, p, c)
  {
  }

  // ----- arc consistency -----

  ghost predicate Agree(c: Candidate, d: Candidate) {
    Compatible(Elems(c), Elems(d))
  }

  /** One candidate per template, all pairwise agreeing. */
  ghost predicate Solution(doms: seq<seq<Candidate>>, choice: seq<Candidate>) {
    && |choice| == |doms|
    && (forall i | 0 <= i < |doms| :: choice[i] in doms[i])
    && forall i, j | 0 <= i < |doms| && 0 <= j < |doms| :: Agree(choice[i], choice[j])
  }

  ghost predicate SupportedBy(c: Candidate, domain: seq<Candidate>) {
    exists d | d in domain :: Agree(c, d)
  }

  ghost predicate Supported(doms: seq<seq<Candidate>>, i: nat, c: Candidate) {
    forall j | 0 <= j < |doms| && j != i :: SupportedBy(c, doms[j])
  }

  ghost predicate ArcConsistent(doms: seq<seq<Candidate>>) {
    forall i, c | 0 <= i < |doms| && c in doms[i] :: Supported(doms, i, c)
  }

  ghost predicate AllNormalized(doms: seq<seq<Candidate>>) {
    forall i, c | 0 <= i < |doms| && c in doms[i] :: Normalized(c)
  }

  /** Pruning only removes candidates, and never one that belongs to a solution. */
  ghost predicate Prunes(before: seq<seq<Candidate>>, after: seq<seq<Candidate>>) {
    && |before| == |after|
    && (forall i, c | 0 <= i < |after| && c in after[i] :: c in before[i])
    && (forall i | 0 <= i < |after| :: |after[i]| <= |before[i]|)
    && forall choice | Solution(before, choice) :: Solution(after, choice)
  }

  lemma PrunesTrans(a: seq<seq<Candidate>>, b: seq<seq<Candidate>>, c: seq<seq<Candidate>>)
    requires Prunes(a, b) && Prunes(b, c)
    ensures Prunes(a, c)
  {
  }

  function Erase(s: seq<Candidate>, at: nat): seq<Candidate>
    requires at < |s|
  {
    s[..at] + s[at + 1..]
  }

  /** Erasing an unsupported candidate loses no solution. */
  lemma EraseUnsupported(doms: seq<seq<Candidate>>, i: nat, at: nat)
    requires i < |doms| && at < |doms[i]| && !Supported(doms, i, doms[i][at])
    ensures Prunes(doms, doms[i := Erase(doms[i], at)])
  {
    var after := doms[i := Erase(doms[i], at)];
    forall choice | Solution(doms, choice) ensures Solution(after, choice) {
      if choice[i] == doms[i][at] {
        forall j | 0 <= j < |doms| && j != i ensures SupportedBy(choice[i], doms[j]) {
          assert choice[j] in doms[j] && Agree(choice[i], choice[j]);
        }
      } else {
        var k :| 0 <= k < |doms[i]| && doms[i][k] == choice[i];
        assert after[i][if k < at then k else k - 1] == choice[i];
      }
    }
  }

  lemma EraseShrinks(doms: seq<seq<Candidate>>, i: nat, at: nat)
    requires i < |doms| && at < |doms[i]|
    ensures Total(doms[i := Erase(doms[i], at)]) == Total(doms) - 1
  {
    TotalUpdate(doms, i, Erase(doms[i], at));
  }

  ghost function Total(doms: seq<seq<Candidate>>): nat {
    if doms == [] then 0 else |doms[0]| + Total(doms[1..])
  }

  lemma {:induction false} TotalNext(doms: seq<seq<Candidate>>, n: nat)
    requires n < |doms|
    ensures Total(doms[..n + 1]) == Total(doms[..n]) + |doms[n]| && Total(doms[..n + 1]) <= Total(doms)
    decreases |doms|
  {
    if n == 0 {
      assert doms[..1][1..] == [] && doms[..0] == [];
    } else {
      TotalNext(doms[1..], n - 1);
      assert doms[..n + 1][1..] == doms[1..][..n] && doms[..n][1..] == doms[1..][..n - 1];
    }
  }

  lemma {:induction false} TotalUpdate(doms: seq<seq<Candidate>>, i: nat, row: seq<Candidate>)
    requires i < |doms|
    ensures Total(doms[i := row]) == Total(doms) - |doms[i]| + |row|
  {
    if i == 0 {
      assert doms[0 := row][1..] == doms[1..];
    } else {
      assert doms[i := row][1..] == doms[1..][i - 1 := row];
      TotalUpdate(doms[1..], i - 1, row);
    }
  }

  lemma StillNormalized(doms: seq<seq<Candidate>>, after: seq<seq<Candidate>>)
    requires AllNormalized(doms) && |after| == |doms| && forall i, c | 0 <= i < |after| && c in after[i] :: c in doms[i]
    ensures AllNormalized(after)
  {
  }

  lemma SameOthers(a: seq<seq<Candidate>>, b: seq<seq<Candidate>>, i: nat, c: Candidate)
    requires |a| == |b| && forall j | 0 <= j < |a| && j != i :: a[j] == b[j]
    ensures Supported(a, i, c) <==> Supported(b, i, c)
  {
  }

  lemma EmptyHasNoSolution(before: seq<seq<Candidate>>, after: seq<seq<Candidate>>, i: nat)
    requires Prunes(before, after) && i < |after| && after[i] == []
    ensures forall choice :: !Solution(before, choice)
  {
    assert forall choice | Solution(after, choice) :: choice[i] in after[i];
  }

  // ----- publishing one assignment -----

  lemma ChoiceAgrees(x: Context, codes: seq<Template>, rvas: seq<int>, choice: seq<Candidate>)
    requires ModelOk(x.image, x.model, x.base) && Consistent(x, codes, rvas) && ChoiceFor(x, codes, rvas, choice)
    ensures forall i, j | 0 <= i < |choice| && 0 <= j < |choice| :: Agree(choice[i], choice[j])
  {
    hide Present;
    forall i | 0 <= i < |choice| ensures Respects(rvas, Elems(choice[i])) {
      assert ShapeAt(x, codes[i], rvas) && IsFor(x, codes[i], rvas[codes[i].symbol], choice[i]);
    }
  }

  /** The assignment so far holds exactly the known bindings. */
  ghost predicate Holds(resolved: seq<int>, known: set<Binding>) {
    && (forall b | b in known :: b.symbol < |resolved| && resolved[b.symbol] == b.rva != UNKNOWN)
    && forall s | 0 <= s < |resolved| && resolved[s] != UNKNOWN :: Binding(s, resolved[s]) in known
  }

  ghost predicate InRange(c: Candidate, n: nat) {
    forall b | b in Elems(c) :: b.symbol < n && b.rva != UNKNOWN
  }

  /** Writing the next binding of a canonical list keeps the answer equal to what is known. */
  lemma WriteOne(r: seq<int>, known: set<Binding>, c: Candidate, k: nat)
    requires Normalized(c) && k < |c| && c[k].symbol < |r| && c[k].rva != UNKNOWN && Holds(r, known + Elems(c[..k]))
    requires forall b | b in known && b.symbol == c[k].symbol :: b.rva == c[k].rva
    ensures Holds(r[c[k].symbol := c[k].rva], known + Elems(c[..k + 1]))
  {
    assert c[..k + 1] == c[..k] + [c[k]];
    AppendElems(c[..k], c[k]);
    assert forall b | b in Elems(c[..k]) :: b.symbol != c[k].symbol;
  }

  /** One binding of a merge: a different value already there is a contradiction; otherwise it is written. */
  lemma MergeStep(r: seq<int>, c: Candidate, k: nat, known: set<Binding>)
    requires Normalized(c) && k < |c| && InRange(c, |r|) && Holds(r, known + Elems(c[..k])) && Compatible(known, Elems(c[..k]))
    ensures c[k].symbol < |r|
    ensures if r[c[k].symbol] != UNKNOWN && r[c[k].symbol] != c[k].rva then !Compatible(known, Elems(c))
            else Compatible(known, Elems(c[..k + 1])) && Holds(r[c[k].symbol := c[k].rva], known + Elems(c[..k + 1]))
  {
    assert c[..k + 1] == c[..k] + [c[k]];
    AppendElems(c[..k], c[k]);
    assert c[k] in Elems(c);
    if r[c[k].symbol] != UNKNOWN && r[c[k].symbol] != c[k].rva {
      Conflict(c, k, known, r[c[k].symbol]);
    } else {
      forall b | b in known && b.symbol == c[k].symbol ensures b.rva == c[k].rva {
        assert r[b.symbol] == b.rva != UNKNOWN;
      }
      WriteOne(r, known, c, k);
    }
  }

  lemma Conflict(c: Candidate, k: nat, known: set<Binding>, rva: int)
    requires Normalized(c) && k < |c| && rva != c[k].rva
    requires Binding(c[k].symbol, rva) in known + Elems(c[..k])
    ensures !Compatible(known, Elems(c))
  {
    assert c[k] in Elems(c) && forall b | b in c[..k] :: b.symbol != c[k].symbol;
  }

  /** What the single candidates bind contradicts neither what is already known nor one another. */
  ghost predicate FrontsFit(known: set<Binding>, doms: seq<seq<Candidate>>) {
    && (forall i | 0 <= i < |doms| && |doms[i]| == 1 :: Compatible(known, Elems(doms[i][0])))
    && forall i, j | 0 <= i < |doms| && 0 <= j < |doms| && |doms[i]| == 1 && |doms[j]| == 1 ::
         Compatible(Elems(doms[i][0]), Elems(doms[j][0]))
  }

  /** The bindings of the first n fronts. */
  ghost function Fronts(doms: seq<seq<Candidate>>, n: nat): set<Binding>
    requires n <= |doms| && forall i | 0 <= i < n :: doms[i] != []
  {
    if n == 0 then {} else Fronts(doms, n - 1) + Elems(doms[n - 1][0])
  }

  lemma {:induction false} FrontsCompatible(known: set<Binding>, doms: seq<seq<Candidate>>, n: nat, i: nat)
    requires n <= |doms| && i < |doms| && |doms[i]| == 1 && (forall j | 0 <= j < n :: |doms[j]| == 1) && FrontsFit(known, doms)
    ensures Compatible(known + Fronts(doms, n), Elems(doms[i][0]))
  {
    if n > 0 { FrontsCompatible(known, doms, n - 1, i); }
  }

  /** Every candidate of every domain is a present location of the adopted shape. */
  ghost predicate DomainsSound(x: Context, codes: seq<Template>, doms: seq<seq<Candidate>>) {
    && ModelOk(x.image, x.model, x.base) && |codes| == |doms|
    && forall i | 0 <= i < |doms| :: CodeShapeOk(x.model, codes[i]) && DomainSound(x, codes[i], doms[i])
  }

  lemma PrunedSound(x: Context, codes: seq<Template>, before: seq<seq<Candidate>>, after: seq<seq<Candidate>>)
    requires DomainsSound(x, codes, before) && Prunes(before, after)
    ensures DomainsSound(x, codes, after)
  {
    forall i | 0 <= i < |after| ensures DomainSound(x, codes[i], after[i]) {
      forall c | c in after[i] ensures exists p :: IsFor(x, codes[i], p, c) {
        assert c in before[i];
      }
    }
  }

  ghost function Zeros(m: Model): set<Binding> {
    set s | 0 <= s < |m.symbols| && m.symbols[s].kind.ImageBaseKind? :: Binding(s, 0)
  }

  ghost predicate FixedOk(x: Context, c: Candidate) {
    && Normalized(c) && 0 < |x.image.bytes| <= UNKNOWN
    && forall b | b in c :: b.symbol < |x.model.symbols| && SymbolValid(x.image, x.model, b.symbol, b.rva)
  }

  /** A sound candidate has canonical form, stays in range and fits the fixed bindings and the image base. */
  lemma SoundFits(x: Context, code: Template, cs: seq<Candidate>, c: Candidate)
    requires ModelOk(x.image, x.model, x.base) && CodeShapeOk(x.model, code) && DomainSound(x, code, cs) && c in cs
    ensures Normalized(c) && InRange(c, |x.model.symbols|) && Compatible(Zeros(x.model) + x.fixed, Elems(c))
  {
    var p :| IsFor(x, code, p, c);
    forall b | b in Elems(c)
      ensures b.symbol < |x.model.symbols| && SymbolValid(x.image, x.model, b.symbol, b.rva) && b.rva != UNKNOWN
    {
      BindingValid(x, code, p, b);
    }
  }

  /** After arc consistency the single candidates cannot contradict each other, so no published symbol can conflict. */
  lemma ArcFits(x: Context, codes: seq<Template>, doms: seq<seq<Candidate>>)
    requires DomainsSound(x, codes, doms) && ArcConsistent(doms)
    ensures FrontsFit(Zeros(x.model) + x.fixed, doms)
  {
    hide DomainSound, Zeros;
    forall i | 0 <= i < |doms| && |doms[i]| == 1
      ensures Compatible(Zeros(x.model) + x.fixed, Elems(doms[i][0])) && Normalized(doms[i][0])
    {
      SoundFits(x, codes[i], doms[i], doms[i][0]);
    }
    forall i, j | 0 <= i < |doms| && 0 <= j < |doms| && |doms[i]| == 1 && |doms[j]| == 1
      ensures Compatible(Elems(doms[i][0]), Elems(doms[j][0]))
    {
      if i == j {
        NormalizedIsFunctional(doms[i][0]);
      } else {
        assert doms[i][0] in doms[i] && Supported(doms, i, doms[i][0]);
        assert SupportedBy(doms[i][0], doms[j]);
      }
    }
  }

  ghost predicate Singles(doms: seq<seq<Candidate>>) {
    forall i | 0 <= i < |doms| :: |doms[i]| == 1
  }

  ghost predicate ConstantsMatch(x: Context, rvas: seq<int>) {
    forall k | 0 <= k < |x.model.constants| ::
      x.model.constants[k].symbol < |rvas| && ConstantOk(x, x.model.constants[k], rvas[x.model.constants[k].symbol])
  }

  ghost predicate PointersMatch(x: Context, rvas: seq<int>)
  {
    forall k | 0 <= k < |x.model.pointers| :: PointerMatches(x, rvas, x.model.pointers[k])
  }

  ghost predicate PointerMatches(x: Context, rvas: seq<int>, p: Pointer) {
    && p.owner < |rvas| && p.target < |rvas| && p.target < |x.model.symbols|
    && PointerOk(x, p, rvas[p.owner]) && WordAt(x.image, rvas[p.owner] + p.offset) - x.base == rvas[p.target]
  }

  function Listing(rvas: seq<int>): (r: Candidate)
    ensures |r| == |rvas| && forall s | 0 <= s < |r| :: r[s] == Binding(s, rvas[s])
  {
    seq(|rvas|, s requires 0 <= s < |rvas| => Binding(s, rvas[s]))
  }

  lemma UnmovedPointer(x: Context, rvas: seq<int>, k: nat)
    requires ModelOk(x.image, x.model, x.base) && |rvas| == |x.model.symbols| && k < |x.model.pointers|
    requires FollowOk(x, Elems(Listing(rvas))) && Followed(x, Elems(Listing(rvas))) == Elems(Listing(rvas))
    ensures PointerMatches(x, rvas, x.model.pointers[k])
  {
    hide PointerOk, WordAt, Followed, FollowOk, Functional;
    var p := x.model.pointers[k];
    assert PointerShapeOk(x.model, p);
    var o := Listing(rvas)[p.owner];
    assert o in Listing(rvas);
    FollowedHas(x, Elems(Listing(rvas)), k, o);
    assert Binding(p.target, WordAt(x.image, o.rva + p.offset) - x.base) in Listing(rvas);
  }

  /** A known owner's slot is a valid pointer and what it names is followed. */
  lemma FollowedHas(x: Context, known: set<Binding>, k: nat, o: Binding)
    requires ModelOk(x.image, x.model, x.base) && k < |x.model.pointers| && FollowOk(x, known)
    requires o in known && o.symbol == x.model.pointers[k].owner
    ensures x.model.pointers[k].target < |x.model.symbols| && PointerOk(x, x.model.pointers[k], o.rva)
    ensures Binding(x.model.pointers[k].target, WordAt(x.image, o.rva + x.model.pointers[k].offset) - x.base) in Followed(x, known)
  {
    hide PointerOk, WordAt, Functional;
    var p := x.model.pointers[k];
    assert PointerOkFor(x, known, p);
    var b := Binding(p.target, WordAt(x.image, o.rva + p.offset) - x.base);
    assert b in BoundBy(x, known, p);
    PointerBindingsMember(x, known, |x.model.pointers|, b);
  }

  lemma {:induction false} FrontsMember(doms: seq<seq<Candidate>>, n: nat, b: Binding)
    requires n <= |doms| && forall i | 0 <= i < n :: doms[i] != []
    ensures b in Fronts(doms, n) <==> exists i | 0 <= i < n :: b in Elems(doms[i][0])
  {
    if n > 0 { FrontsMember(doms, n - 1, b); }
  }

  lemma FrontConsistent(x: Context, code: Template, doms: seq<seq<Candidate>>, resolved: seq<int>, known: set<Binding>, i: nat)
    requires ModelOk(x.image, x.model, x.base) && CodeShapeOk(x.model, code) && code.symbol < |resolved|
    requires i < |doms| && Singles(doms) && Holds(resolved, known + Fronts(doms, |doms|))
    requires IsFor(x, code, resolved[code.symbol], doms[i][0])
    ensures ShapeAt(x, code, resolved)
  {
    hide FollowOk, ConstantsOk, OperandsPresent;
    forall b | b in Elems(doms[i][0]) ensures b.symbol < |resolved| && resolved[b.symbol] == b.rva {
      FrontsMember(doms, |doms|, b);
    }
  }

  /** The published assignment is consistent: every adopted shape is present with exactly its bindings. */
  lemma PublishedConsistent(x: Context, codes: seq<Template>, doms: seq<seq<Candidate>>, resolved: seq<int>)
    requires ModelOk(x.image, x.model, x.base) && |codes| == |doms| == |x.model.code| && Singles(doms)
    requires |resolved| == |x.model.symbols| && Holds(resolved, Zeros(x.model) + x.fixed + Fronts(doms, |doms|))
    requires forall i | 0 <= i < |codes| :: CodeShapeOk(x.model, codes[i]) && IsFor(x, codes[i], resolved[codes[i].symbol], doms[i][0])
    ensures Consistent(x, codes, resolved)
  {
    hide IsFor, Present, ShapeAt;
    forall s | 0 <= s < |resolved| && x.model.symbols[s].kind.ImageBaseKind? ensures resolved[s] == 0 {
      assert Binding(s, 0) in Zeros(x.model);
    }
    forall i | 0 <= i < |codes| ensures ShapeAt(x, codes[i], resolved) {
      FrontConsistent(x, codes[i], doms, resolved, Zeros(x.model) + x.fixed, i);
    }
  }

  lemma UniqueAt(x: Context, code: Template, rvas: seq<int>, c: Candidate, b: Binding)
    requires ModelOk(x.image, x.model, x.base) && ShapeAt(x, code, rvas) && IsFor(x, code, rvas[code.symbol], c) && b in c
    ensures b.symbol < |rvas| && rvas[b.symbol] == b.rva
  {
    assert b in Elems(c);
  }

  /** Any consistent assignment whose choice survived pruning is the published one. */
  lemma PublishedUnique(x: Context, codes: seq<Template>, doms: seq<seq<Candidate>>, resolved: seq<int>,
                               rvas: seq<int>, choice: seq<Candidate>)
    requires ModelOk(x.image, x.model, x.base) && |codes| == |doms| == |x.model.code| && Singles(doms)
    requires |resolved| == |x.model.symbols| && UNKNOWN !in resolved
    requires Holds(resolved, Zeros(x.model) + x.fixed + Fronts(doms, |doms|))
    requires Consistent(x, codes, rvas) && Solution(doms, choice) && ChoiceFor(x, codes, rvas, choice)
    ensures rvas == resolved
  {
    hide IsFor, Present, Agree, ShapeAt;
    forall s | 0 <= s < |resolved| ensures rvas[s] == resolved[s] {
      var b := Binding(s, resolved[s]);
      assert resolved[s] != UNKNOWN;
      if b in Fronts(doms, |doms|) {
        FrontsMember(doms, |doms|, b);
        var i :| 0 <= i < |doms| && b in Elems(doms[i][0]);
        assert choice[i] in doms[i] && choice[i] == doms[i][0];
        UniqueAt(x, codes[i], rvas, choice[i], b);
      }
    }
  }

  ghost predicate EarlierNowhere(x: Context, shapes: seq<Body>, sel: nat)
    requires sel < |shapes|
  {
    ShapesOk(x, shapes) && forall b | 0 <= b < sel :: Nowhere(x, shapes[b].code)
  }

  lemma RowMostSpecific(x: Context, shapes: seq<Body>, sel: nat, domain: seq<Candidate>,
                               foundRow: seq<seq<Candidate>>, attemptedRow: seq<set<int>>, offered: set<int>)
    requires RowInv(x, shapes, sel, domain, foundRow, attemptedRow, offered) && shapes[0].discoverable
    ensures EarlierNowhere(x, shapes, sel)
  {
  }

  /** Every consistent assignment still has an agreeing choice of candidates in the domains. */
  ghost predicate Survives(x: Context, codes: seq<Template>, doms: seq<seq<Candidate>>)
    requires ModelOk(x.image, x.model, x.base)
  {
    forall rvas | Consistent(x, codes, rvas) :: exists choice :: Solution(doms, choice) && ChoiceFor(x, codes, rvas, choice)
  }

  ghost predicate NoneConsistent(x: Context, codes: seq<Template>)
    requires ModelOk(x.image, x.model, x.base)
  {
    forall rvas :: !Consistent(x, codes, rvas)
  }

  /** Without an agreeing choice of candidates no assignment was consistent to begin with. */
  lemma Refuted(x: Context, codes: seq<Template>, doms: seq<seq<Candidate>>)
    requires ModelOk(x.image, x.model, x.base) && Survives(x, codes, doms) && forall choice :: !Solution(doms, choice)
    ensures NoneConsistent(x, codes)
  {
    hide Consistent, Solution, ChoiceFor;
  }

  lemma PrunedSurvives(x: Context, codes: seq<Template>, before: seq<seq<Candidate>>, after: seq<seq<Candidate>>)
    requires ModelOk(x.image, x.model, x.base) && Survives(x, codes, before) && Prunes(before, after)
    ensures Survives(x, codes, after)
  {
    forall rvas | Consistent(x, codes, rvas)
      ensures exists choice :: Solution(after, choice) && ChoiceFor(x, codes, rvas, choice)
    {
      var choice :| Solution(before, choice) && ChoiceFor(x, codes, rvas, choice);
      assert Solution(after, choice);
    }
  }

  lemma SoundNormalized(x: Context, codes: seq<Template>, doms: seq<seq<Candidate>>)
    requires DomainsSound(x, codes, doms)
    ensures AllNormalized(doms)
  {
    hide DomainSound;
    forall i, c | 0 <= i < |doms| && c in doms[i] ensures Normalized(c) {
      SoundFits(x, codes[i], doms[i], c);
    }
  }

  lemma SoundNonnegative(x: Context, code: Template, cs: seq<Candidate>, c: Candidate, b: Binding)
    requires ModelOk(x.image, x.model, x.base) && CodeShapeOk(x.model, code) && DomainSound(x, code, cs) && c in cs && b in Elems(c)
    ensures b.rva >= 0
  {
    var p :| IsFor(x, code, p, c);
    BindingValid(x, code, p, b);
  }

  // ----- preparation -----

  ghost predicate FreeRun(exact: seq<bool>, offset: nat, size: nat) {
    offset + size <= |exact| && forall at | offset <= at < offset + size :: exact[at]
  }

  function TemplateBytes(codes: seq<Template>): nat {
    if codes == [] then 0 else TemplateBytes(codes[..|codes| - 1]) + |codes[|codes| - 1].bytes|
  }

  function OperandCount(codes: seq<Template>): nat {
    if codes == [] then 0 else |codes[0].operands| + OperandCount(codes[1..])
  }

  function ConstantBytes(constants: seq<Constant>): nat {
    if constants == [] then 0 else ConstantBytes(constants[..|constants| - 1]) + |constants[|constants| - 1].bytes|
  }

  /** The limits on a model: counts, bytes, and one template a symbol. */
  predicate Capped(model: Model) {
    && |model.code| <= 64 && |model.variants| <= 64 && |model.constants| <= 4096 && |model.pointers| <= 256
    && TemplateBytes(model.code + model.variants) <= 262144 && ConstantBytes(model.constants) <= 65536
    && forall i, j | 0 <= i < j < |model.code| :: model.code[i].symbol != model.code[j].symbol
  }

  function CodeSize(sections: seq<Section>): nat {
    if sections == [] then 0 else (if StaticCode(sections[0]) then sections[0].size else 0) + CodeSize(sections[1..])
  }

  /** Entries of a seed list name discoverable shapes. */
  ghost predicate EntriesOk(rows: seq<seq<Body>>, index: map<nat, seq<(nat, nat)>>) {
    forall k, j | k in index && 0 <= j < |index[k]| ::
      index[k][j].0 < |rows| && index[k][j].1 < |rows[index[k][j].0]| && rows[index[k][j].0][index[k][j].1].discoverable
  }

  /** Adding one shape under its key lists it and keeps every other listed. */
  lemma StillListed(before: map<nat, seq<(nat, nat)>>, longest: nat, after: map<nat, seq<(nat, nat)>>, longest': nat,
                           key: nat, list: seq<(nat, nat)>, i: nat, b: nat, body: Body)
    requires list == if key in before then before[key] else []
    requires after == before[key := list + [(i, b)]] && longest <= longest'
    requires 7 <= body.seedSize <= longest' && body.seedOffset + body.seedSize <= |body.code.bytes| && key == SeedKey(body)
    ensures Listed(after, longest', i, b, body)
    ensures forall j: nat, c: nat, other: Body | Listed(before, longest, j, c, other) :: Listed(after, longest', j, c, other)
  {
    assert after[key][|list|] == (i, b);
  }

  /** What the roots bind does not depend on the bindings fixed so far. */
  lemma FollowedFixed(x: Context, y: Context, known: set<Binding>, c: Candidate)
    requires x.image == y.image && x.model == y.model && x.base == y.base
    requires ModelOk(x.image, x.model, x.base) && FollowOk(x, known) && Normalized(c) && Elems(c) == Followed(x, known)
    requires forall b | b in known :: b.symbol < |x.model.symbols| && SymbolValid(x.image, x.model, b.symbol, b.rva)
    ensures FixedOk(x, c)
    ensures forall z: Context | z.image == x.image && z.model == x.model && z.base == x.base :: Elems(c) == Followed(z, known) && FixedOk(z, c)
  {
    FollowedValid(x, known);
    forall z: Context | z.image == x.image && z.model == x.model && z.base == x.base
      ensures Elems(c) == Followed(z, known) && FixedOk(z, c)
    {
      SameFollowed(x, z, known, |x.model.pointers|);
      assert forall b | b in c :: b in Elems(c);
    }
  }

  lemma SameFollowOk(x: Context, z: Context, known: set<Binding>)
    requires x.image == z.image && x.model == z.model && x.base == z.base
    requires ModelOk(x.image, x.model, x.base) && FollowOk(x, known)
    ensures FollowOk(z, known)
  {
    hide WordAt, SymbolValid, Containing, PointerBindings;
    SameFollowed(x, z, known, |x.model.pointers|);
    forall k | 0 <= k < |z.model.pointers| ensures PointerOkFor(z, known, z.model.pointers[k]) {
      assert PointerOkFor(x, known, x.model.pointers[k]);
    }
  }

  lemma {:induction false} SameFollowed(x: Context, y: Context, known: set<Binding>, n: nat)
    requires x.image == y.image && x.model == y.model && x.base == y.base && n <= |x.model.pointers|
    ensures PointerBindings(x, known, n) == PointerBindings(y, known, n)
  {
    hide WordAt;
    if n > 0 { SameFollowed(x, y, known, n - 1); }
  }

  /** Following pointers from valid bindings binds only valid ones. */
  lemma FollowedValid(x: Context, known: set<Binding>)
    requires ModelOk(x.image, x.model, x.base) && FollowOk(x, known)
    requires forall b | b in known :: b.symbol < |x.model.symbols| && SymbolValid(x.image, x.model, b.symbol, b.rva)
    ensures forall b | b in Followed(x, known) :: b.symbol < |x.model.symbols| && SymbolValid(x.image, x.model, b.symbol, b.rva)
  {
    hide SymbolValid, FollowOk, ModelOk, Followed;
    forall b | b in Followed(x, known)
      ensures b.symbol < |x.model.symbols| && SymbolValid(x.image, x.model, b.symbol, b.rva)
    {
      if b !in known { FollowedOneValid(x, known, b); }
    }
  }

  lemma FollowedOneValid(x: Context, known: set<Binding>, b: Binding)
    requires ModelOk(x.image, x.model, x.base) && FollowOk(x, known) && b in Followed(x, known) && b !in known
    ensures b.symbol < |x.model.symbols| && SymbolValid(x.image, x.model, b.symbol, b.rva)
  {
    hide WordAt, SymbolValid, Containing, Functional;
    PointerBindingsMember(x, known, |x.model.pointers|, b);
    var k :| 0 <= k < |x.model.pointers| && b in BoundBy(x, known, x.model.pointers[k]);
    assert PointerOkFor(x, known, x.model.pointers[k]);
  }

  /** One empty entry for every shape. */
  function Blank<T>(rows: seq<seq<Body>>, value: T): (r: seq<seq<T>>)
    ensures |r| == |rows|
    ensures forall i | 0 <= i < |rows| :: |r[i]| == |rows[i]| && forall b | 0 <= b < |rows[i]| :: r[i][b] == value
  {
    seq(|rows|, i requires 0 <= i < |rows| => seq(|rows[i]|, b => value))
  }

  lemma PutPut<T>(s: seq<seq<T>>, i: nat, b: nat, v: T, w: T)
    requires i < |s| && b < |s[i]|
    ensures Put(Put(s, i, b, v), i, b, w) == Put(s, i, b, w)
  {
    assert s[i][b := v][b := w] == s[i][b := w];
  }

  lemma PutSame<T>(s: seq<seq<T>>, i: nat, b: nat)
    requires i < |s| && b < |s[i]|
    ensures Put(s, i, b, s[i][b]) == s
  {
    assert s[i][b := s[i][b]] == s[i];
  }

  /** Replaces entry (i, b) of a nested list. */
  function Put<T>(s: seq<seq<T>>, i: nat, b: nat, value: T): seq<seq<T>>
    requires i < |s| && b < |s[i]|
  {
    s[i := s[i][b := value]]
  }
}
