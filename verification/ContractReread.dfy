/** Why rereading an unchanging image finds nothing new: what pruning leaves is already present at its published
    addresses, every constant was checked and every pointer slot followed when its owner was bound. */
module ContractReread {
  import opened Bindings
  import opened ContractModel
  import opened ContractDomains

  /** Every slot of an owner in `known` is a valid pointer, and what it addresses is in `all`. */
  ghost predicate SlotsIn(x: Context, known: set<Binding>, all: set<Binding>)
    requires ModelOk(x.image, x.model, x.base)
  {
    forall k | 0 <= k < |x.model.pointers| :: SlotIn(x, known, all, x.model.pointers[k])
  }

  ghost predicate SlotIn(x: Context, known: set<Binding>, all: set<Binding>, p: Pointer)
    requires p.target < |x.model.symbols|
  {
    PointerOkFor(x, known, p) && BoundBy(x, known, p) <= all
  }

  /** The roots' slots are followed and their constants checked. */
  ghost predicate FixedClosed(x: Context)
    requires ModelOk(x.image, x.model, x.base)
  {
    SlotsIn(x, x.fixed, x.fixed) && ConstantsOk(x, x.fixed)
  }

  /** Pointer slots bind code, so following them binds no further owner and no constant's symbol. */
  lemma ReadOnlyKept(x: Context, known: set<Binding>, b: Binding)
    requires ModelOk(x.image, x.model, x.base) && b in Followed(x, known)
    requires b.symbol < |x.model.symbols| && x.model.symbols[b.symbol].kind.ReadOnlyKind?
    ensures b in known
  {
    hide WordAt, SymbolValid;
    assert forall k | 0 <= k < |x.model.pointers| :: PointerShapeOk(x.model, x.model.pointers[k]);
    PointerBindingsMember(x, known, |x.model.pointers|, b);
  }

  lemma FollowedSlots(x: Context, known: set<Binding>)
    requires ModelOk(x.image, x.model, x.base) && FollowOk(x, known)
    ensures SlotsIn(x, Followed(x, known), Followed(x, known))
  {
    hide WordAt, PointerOk, Followed, Functional;
    var all := Followed(x, known);
    forall k | 0 <= k < |x.model.pointers| ensures SlotIn(x, all, all, x.model.pointers[k]) {
      var p := x.model.pointers[k];
      assert PointerShapeOk(x.model, p);
      forall b | b in all && b.symbol == p.owner
        ensures PointerOk(x, p, b.rva) && Binding(p.target, WordAt(x.image, b.rva + p.offset) - x.base) in all
      {
        ReadOnlyKept(x, known, b);
        FollowedHas(x, known, k, b);
      }
    }
  }

  lemma FollowedConstants(x: Context, known: set<Binding>)
    requires ModelOk(x.image, x.model, x.base) && ConstantsOk(x, known)
    ensures ConstantsOk(x, Followed(x, known))
  {
    hide ConstantOk, Followed;
    forall k | 0 <= k < |x.model.constants| ensures ConstantOkFor(x, Followed(x, known), x.model.constants[k]) {
      var c := x.model.constants[k];
      assert ConstantShapeOk(x.model, c) && ConstantOkFor(x, known, c);
      forall b | b in Followed(x, known) && b.symbol == c.symbol ensures ConstantOk(x, c, b.rva) {
        ReadOnlyKept(x, known, b);
      }
    }
  }

  lemma FixedIsClosed(x: Context, roots: set<Binding>)
    requires ModelOk(x.image, x.model, x.base) && x.fixed == Followed(x, roots) && FollowOk(x, roots) && ConstantsOk(x, roots)
    ensures FixedClosed(x)
  {
    hide SlotsIn, ConstantsOk, Followed, FollowOk, ModelOk;
    FollowedSlots(x, roots);
    FollowedConstants(x, roots);
  }

  /** A present shape's bindings are closed in the same way. */
  lemma FrontClosed(x: Context, code: Template, p: int, c: Candidate)
    requires ModelOk(x.image, x.model, x.base) && CodeShapeOk(x.model, code) && IsFor(x, code, p, c)
    ensures SlotsIn(x, Elems(c), Elems(c)) && ConstantsOk(x, Elems(c))
  {
    hide SlotsIn, ConstantsOk, OperandsPresent, ModelOk;
    FollowedSlots(x, OwnBindings(x, code, p, |code.operands|));
  }

  // ----- the assembled assignment -----

  /** What `Assemble` leaves: single sound candidates whose bindings, with the roots and the image base, are the answer. */
  ghost predicate Settled(x: Context, codes: seq<Template>, doms: seq<seq<Candidate>>, resolved: seq<int>) {
    && DomainsSound(x, codes, doms) && Singles(doms) && |resolved| == |x.model.symbols| && UNKNOWN !in resolved
    && Holds(resolved, Zeros(x.model) + x.fixed + Fronts(doms, |doms|)) && FixedClosed(x)
  }

  /** The single candidate of a template is the one of its published address. */
  lemma FrontPresent(x: Context, codes: seq<Template>, doms: seq<seq<Candidate>>, resolved: seq<int>, i: nat)
    requires Settled(x, codes, doms, resolved) && i < |doms|
    ensures codes[i].symbol < |resolved| && IsFor(x, codes[i], resolved[codes[i].symbol], doms[i][0])
  {
    hide FixedClosed, Present;
    var code, c := codes[i], doms[i][0];
    assert c in doms[i] && DomainSound(x, code, doms[i]);
    var p :| IsFor(x, code, p, c);
    OwnBinding(x, code, p, c);
    FrontsMember(doms, |doms|, Binding(code.symbol, p));
    assert Binding(code.symbol, p) in Zeros(x.model) + x.fixed + Fronts(doms, |doms|);
  }

  lemma OwnBinding(x: Context, code: Template, p: int, c: Candidate)
    requires ModelOk(x.image, x.model, x.base) && CodeShapeOk(x.model, code) && IsFor(x, code, p, c)
    ensures Binding(code.symbol, p) in Elems(c)
  {
    assert Binding(code.symbol, p) in OwnBindings(x, code, p, |code.operands|);
  }

  /** Every published read-only symbol was bound by the roots or by a candidate, with its slots and constants. */
  lemma ReadOnlyBound(x: Context, codes: seq<Template>, doms: seq<seq<Candidate>>, resolved: seq<int>, s: nat) returns (group: set<Binding>)
    requires Settled(x, codes, doms, resolved) && s < |resolved| && x.model.symbols[s].kind.ReadOnlyKind?
    ensures Binding(s, resolved[s]) in group && group <= x.fixed + Fronts(doms, |doms|)
    ensures SlotsIn(x, group, group) && ConstantsOk(x, group)
  {
    hide SlotsIn, ConstantsOk, IsFor, DomainSound;
    var b := Binding(s, resolved[s]);
    assert resolved[s] != UNKNOWN;
    if b in x.fixed {
      group := x.fixed;
    } else {
      FrontsMember(doms, |doms|, b);
      var i :| 0 <= i < |doms| && b in Elems(doms[i][0]);
      FrontPresent(x, codes, doms, resolved, i);
      FrontClosed(x, codes[i], resolved[codes[i].symbol], doms[i][0]);
      group := Elems(doms[i][0]);
      FrontIncluded(doms, |doms|, i);
    }
  }

  lemma FrontIncluded(doms: seq<seq<Candidate>>, n: nat, i: nat)
    requires n <= |doms| && i < n && forall j | 0 <= j < n :: doms[j] != []
    ensures Elems(doms[i][0]) <= Fronts(doms, n)
  {
    forall b | b in Elems(doms[i][0]) ensures b in Fronts(doms, n) { FrontsMember(doms, n, b); }
  }

  lemma ConstantSettled(x: Context, codes: seq<Template>, doms: seq<seq<Candidate>>, resolved: seq<int>, k: nat)
    requires Settled(x, codes, doms, resolved) && k < |x.model.constants|
    ensures var c := x.model.constants[k]; c.symbol < |resolved| && ConstantOk(x, c, resolved[c.symbol])
  {
    hide Settled, ConstantOk;
    SettledModel(x, codes, doms, resolved);
    var c := x.model.constants[k];
    assert ConstantShapeOk(x.model, c);
    var group := ReadOnlyBound(x, codes, doms, resolved, c.symbol);
    assert ConstantOkFor(x, group, c);
  }

  lemma SettledModel(x: Context, codes: seq<Template>, doms: seq<seq<Candidate>>, resolved: seq<int>)
    requires Settled(x, codes, doms, resolved)
    ensures ModelOk(x.image, x.model, x.base) && |resolved| == |x.model.symbols| && Singles(doms)
    ensures Holds(resolved, Zeros(x.model) + x.fixed + Fronts(doms, |doms|))
  {
  }

  lemma SlotSettled(x: Context, codes: seq<Template>, doms: seq<seq<Candidate>>, resolved: seq<int>, k: nat)
    requires Settled(x, codes, doms, resolved) && k < |x.model.pointers|
    ensures var p := x.model.pointers[k];
            p.target < |x.model.symbols| && SlotIn(x, Elems(Listing(resolved)), Elems(Listing(resolved)), p)
  {
    hide Settled, PointerOk, WordAt, Zeros, Fronts;
    SettledModel(x, codes, doms, resolved);
    var p := x.model.pointers[k];
    assert PointerShapeOk(x.model, p);
    var group := ReadOnlyBound(x, codes, doms, resolved, p.owner);
    assert SlotIn(x, group, group, p);
    var all, owner := Elems(Listing(resolved)), Binding(p.owner, resolved[p.owner]);
    var target := Binding(p.target, WordAt(x.image, owner.rva + p.offset) - x.base);
    assert target in BoundBy(x, group, p);
    assert target in Zeros(x.model) + x.fixed + Fronts(doms, |doms|);
    assert Listing(resolved)[p.target] == target;
    forall b | b in all && b.symbol == p.owner ensures b == owner {
      assert Listing(resolved)[p.owner] == owner;
    }
  }

  /** Nothing the reread follows adds to the answer or moves it. */
  lemma NothingAdded(x: Context, codes: seq<Template>, doms: seq<seq<Candidate>>, resolved: seq<int>)
    requires Settled(x, codes, doms, resolved)
    ensures ModelOk(x.image, x.model, x.base)
    ensures FollowOk(x, Elems(Listing(resolved))) && Followed(x, Elems(Listing(resolved))) == Elems(Listing(resolved))
  {
    hide Settled, PointerOk, WordAt, BoundBy;
    SettledModel(x, codes, doms, resolved);
    var all := Elems(Listing(resolved));
    forall k | 0 <= k < |x.model.pointers| ensures PointerOkFor(x, all, x.model.pointers[k]) && BoundBy(x, all, x.model.pointers[k]) <= all {
      SlotSettled(x, codes, doms, resolved, k);
    }
    forall b | b in PointerBindings(x, all, |x.model.pointers|) ensures b in all {
      PointerBindingsMember(x, all, |x.model.pointers|, b);
    }
    assert Followed(x, all) == all;
    NormalizedIsFunctional(Listing(resolved));
  }
}
