/** Candidate bindings of the contract resolver: pairs (symbol, RVA), the two-pointer
    agreement test and the sort/deduplicate step that makes a binding list canonical. */
module Bindings {

  datatype Binding = Binding(symbol: nat, rva: int)

  type Candidate = seq<Binding>

  ghost function Elems(s: seq<Binding>): set<Binding> {
    set b | b in s
  }

  /** No symbol is bound to two different RVAs. */
  ghost predicate Functional(s: set<Binding>) {
    forall a, b | a in s && b in s && a.symbol == b.symbol :: a.rva == b.rva
  }

  /** The two sets give every symbol they share the same RVA. */
  ghost predicate Compatible(left: set<Binding>, right: set<Binding>) {
    forall a, b | a in left && b in right && a.symbol == b.symbol :: a.rva == b.rva
  }

  /** Strictly ascending symbols: the form every stored candidate has. */
  ghost predicate Normalized(s: Candidate) {
    forall i, j | 0 <= i < j < |s| :: s[i].symbol < s[j].symbol
  }

  predicate Before(a: Binding, b: Binding) {
    a.symbol < b.symbol || (a.symbol == b.symbol && a.rva <= b.rva)
  }

  ghost predicate Sorted(s: Candidate) {
    forall i, j | 0 <= i < j < |s| :: Before(s[i], s[j])
  }

  /** The two-pointer walk decides agreement on shared symbols. */
  method Agrees(left: Candidate, right: Candidate) returns (r: bool)
    requires Normalized(left) && Normalized(right)
    ensures r <==> Compatible(Elems(left), Elems(right))
  {
    var a, b := 0, 0;
    while a < |left| && b < |right|
      invariant 0 <= a <= |left| && 0 <= b <= |right|
      invariant forall i, j | 0 <= i < |left| && 0 <= j < |right| && (i < a || j < b) ::
                  left[i].symbol == right[j].symbol ==> left[i].rva == right[j].rva
      decreases |left| - a + |right| - b
    {
      if left[a].symbol < right[b].symbol {
        a := a + 1;
      } else if left[a].symbol > right[b].symbol {
        b := b + 1;
      } else {
        if left[a].rva != right[b].rva {
          assert left[a] in Elems(left) && right[b] in Elems(right);
          return false;
        }
        a, b := a + 1, b + 1;
      }
    }
    return true;
  }

  function Insert(b: Binding, s: Candidate): Candidate {
    if s == [] then [b] else if Before(b, s[0]) then [b] + s else [s[0]] + Insert(b, s[1..])
  }

  function SortBindings(s: Candidate): Candidate {
    if s == [] then [] else Insert(s[0], SortBindings(s[1..]))
  }

  lemma ConsElems(b: Binding, s: Candidate)
    ensures Elems([b] + s) == {b} + Elems(s)
  {
  }

  lemma ConsSorted(b: Binding, s: Candidate)
    requires Sorted(s) && forall x | x in Elems(s) :: Before(b, x)
    ensures Sorted([b] + s)
  {
    forall i, j | 0 <= i < j < |[b] + s| ensures Before(([b] + s)[i], ([b] + s)[j]) {
      assert s[j - 1] in Elems(s);
      if i > 0 { assert Before(s[i - 1], s[j - 1]); }
    }
  }

  lemma {:induction false} InsertSorts(b: Binding, s: Candidate)
    requires Sorted(s)
    ensures Sorted(Insert(b, s)) && Elems(Insert(b, s)) == Elems(s) + {b}
  {
    if s == [] {
    } else if Before(b, s[0]) {
      assert forall i | 0 <= i < |s| :: Before(s[0], s[i]);
      ConsElems(b, s);
      ConsSorted(b, s);
    } else {
      assert forall i | 0 <= i < |s[1..]| :: Before(s[0], s[1..][i]);
      InsertSorts(b, s[1..]);
      ConsElems(s[0], s[1..]);
      assert s == [s[0]] + s[1..];
      ConsElems(s[0], Insert(b, s[1..]));
      ConsSorted(s[0], Insert(b, s[1..]));
    }
  }

  lemma {:induction false} SortSorts(s: Candidate)
    ensures Sorted(SortBindings(s)) && Elems(SortBindings(s)) == Elems(s)
  {
    if s != [] {
      SortSorts(s[1..]);
      InsertSorts(s[0], SortBindings(s[1..]));
      ConsElems(s[0], s[1..]);
      assert s == [s[0]] + s[1..];
    }
  }

  /** No symbol occurs twice. */
  predicate OneEach(s: Candidate) {
    forall i, j | 0 <= i < j < |s| :: s[i].symbol != s[j].symbol
  }

  lemma OneEachSplits(b: Binding, s: Candidate)
    ensures OneEach([b] + s) <==> OneEach(s) && forall x | x in s :: x.symbol != b.symbol
  {
    var all := [b] + s;
    if OneEach(all) {
      forall i, j | 0 <= i < j < |s| ensures s[i].symbol != s[j].symbol { assert all[i + 1].symbol != all[j + 1].symbol; }
      forall x | x in s ensures x.symbol != b.symbol {
        var i :| 0 <= i < |s| && s[i] == x;
        assert all[0].symbol != all[i + 1].symbol;
      }
    }
  }

  lemma {:induction false} InsertOneEach(b: Binding, s: Candidate)
    requires Sorted(s)
    ensures OneEach(Insert(b, s)) <==> OneEach([b] + s)
  {
    if s != [] && !Before(b, s[0]) {
      hide OneEach;
      var first, rest := s[0], s[1..];
      assert s == [first] + rest;
      InsertOneEach(b, rest);
      InsertSorts(b, rest);
      assert forall x :: x in Insert(b, rest) <==> x in Elems(Insert(b, rest));
      OneEachSplits(first, Insert(b, rest));
      OneEachSplits(b, rest);
      OneEachSplits(b, s);
      OneEachSplits(first, rest);
    }
  }

  /** After sorting, neighbours tell whether a symbol was bound twice. */
  lemma {:induction false} SortOneEach(s: Candidate)
    ensures Normalized(SortBindings(s)) <==> OneEach(s)
  {
    SortSorts(s);
    if s != [] {
      var rest := SortBindings(s[1..]);
      SortOneEach(s[1..]);
      SortSorts(s[1..]);
      InsertOneEach(s[0], rest);
      OneEachSplits(s[0], rest);
      OneEachSplits(s[0], s[1..]);
      assert s == [s[0]] + s[1..];
      assert forall x :: (x in rest <==> x in Elems(rest)) && (x in s[1..] <==> x in Elems(s[1..]));
      SortedOneEach(rest);
    }
    SortedOneEach(SortBindings(s));
  }

  lemma SortedOneEach(s: Candidate)
    requires Sorted(s)
    ensures Normalized(s) <==> OneEach(s)
  {
  }

  /** Sort, refuse a symbol with two RVAs, drop duplicates. */
  method Normalize(candidate: Candidate) returns (ok: bool, r: Candidate)
    ensures ok <==> Functional(Elems(candidate))
    ensures ok ==> Normalized(r) && Elems(r) == Elems(candidate)
  {
    r := SortBindings(candidate);
    SortSorts(candidate);
    var i := 1;
    while i < |r|
      invariant forall k | 1 <= k < i && k < |r| :: r[k - 1].symbol == r[k].symbol ==> r[k - 1].rva == r[k].rva
    {
      if r[i - 1].symbol == r[i].symbol && r[i - 1].rva != r[i].rva {
        assert r[i - 1] in Elems(r) && r[i] in Elems(r);
        return false, r;
      }
      i := i + 1;
    }
    r := Unique(r);
    NormalizedIsFunctional(r);
    return true, r;
  }

  /** Keep the first of each run of equal neighbours. */
  method Unique(s: Candidate) returns (r: Candidate)
    requires Sorted(s)
    requires forall k | 1 <= k < |s| :: s[k - 1].symbol == s[k].symbol ==> s[k - 1].rva == s[k].rva
    ensures Normalized(r) && Elems(r) == Elems(s)
  {
    r := [];
    for i := 0 to |s|
      invariant Normalized(r)
      invariant Elems(r) == Elems(s[..i])
      invariant if i == 0 then r == [] else r != [] && r[|r| - 1] == s[i - 1]
    {
      assert Elems(s[..i + 1]) == Elems(s[..i]) + {s[i]} by { assert s[..i + 1] == s[..i] + [s[i]]; }
      if i == 0 || s[i - 1] != s[i] {
        assert i > 0 ==> Before(s[i - 1], s[i]) && r[|r| - 1].symbol < s[i].symbol;
        r := r + [s[i]];
      }
    }
    assert s[..|s|] == s;
  }

  lemma NormalizedIsFunctional(s: Candidate)
    requires Normalized(s)
    ensures Functional(Elems(s))
  {
  }

  /** A canonical list is determined by the set of its bindings. */
  lemma {:induction false} NormalizedUnique(a: Candidate, b: Candidate)
    requires Normalized(a) && Normalized(b) && Elems(a) == Elems(b)
    ensures a == b
    decreases |a|
  {
    NonemptyElems(a);
    NonemptyElems(b);
    if a != [] && b != [] {
      assert a[0] in Elems(b) && b[0] in Elems(a);
      assert a[0] == b[0] by {
        assert a[0] in b && b[0] in a;
      }
      TailElems(a);
      TailElems(b);
      NormalizedUnique(a[1..], b[1..]);
      assert a == [a[0]] + a[1..] && b == [b[0]] + b[1..];
    }
  }

  lemma NonemptyElems(s: Candidate)
    ensures s == [] <==> Elems(s) == {}
  {
    if s != [] { assert s[0] in Elems(s); }
  }

  lemma TailElems(s: Candidate)
    requires Normalized(s) && s != []
    ensures Elems(s[1..]) == Elems(s) - {s[0]} && Normalized(s[1..])
  {
    assert s == [s[0]] + s[1..];
  }

  lemma AppendElems(s: Candidate, b: Binding)
    ensures Elems(s + [b]) == Elems(s) + {b}
  {
  }

  /** First binding of a symbol in a canonical list, as std::lower_bound finds it. */
  method Find(s: Candidate, symbol: nat) returns (found: bool, rva: int)
    requires Normalized(s)
    ensures found ==> Binding(symbol, rva) in s
    ensures !found ==> forall b | b in s :: b.symbol != symbol
  {
    var lo, hi := 0, |s|;
    while lo < hi
      invariant 0 <= lo <= hi <= |s|
      invariant forall k | 0 <= k < lo :: s[k].symbol < symbol
      invariant forall k | hi <= k < |s| :: s[k].symbol >= symbol
    {
      var mid := (lo + hi) / 2;
      if s[mid].symbol < symbol { lo := mid + 1; } else { hi := mid; }
    }
    if lo < |s| && s[lo].symbol == symbol {
      return true, s[lo].rva;
    }
    return false, 0;
  }
}
