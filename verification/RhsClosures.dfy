/** The closure of a set of symbols under rules whose right-hand sides it covers, by a
    stack of symbols and an index from symbols to the rules that mention them. */
module RhsClosures {
  import opened Options
  import opened Externals
  import opened BitVectors

  /** The symbols on a rule's right-hand side; a sequence has just its item there. */
  function RhsOf(r: Xrl): seq<nat> {
    match r
    case Bnf(_, rhs) => rhs
    case Sequence(_, item, _, _, _) => [item]
  }

  /** The symbols a rule is listed under. */
  function Mentions(r: Xrl): seq<nat> {
    RhsOf(r) + if r.Sequence? then Separators(r.separator) else []
  }

  /** Symbol identifiers are those of the grammar. */
  ghost predicate SymbolsExist(x: External) {
    forall r :: 0 <= r < |x.xrls| ==>
      x.xrls[r].lhs < x.xsyCount && forall s :: s in Mentions(x.xrls[r]) ==> s < x.xsyCount
  }

  // ---- The index ----

  /** Pairs of a symbol and a rule, in order, without repeats. */
  ghost predicate Ascending(pairs: seq<(nat, nat)>) {
    forall i, j :: 0 <= i < j < |pairs| ==> pairs[i].0 < pairs[j].0 || (pairs[i].0 == pairs[j].0 && pairs[i].1 < pairs[j].1)
  }

  /** The pairs say which rules mention which symbols. */
  ghost predicate PairsAre(x: External, pairs: seq<(nat, nat)>) {
    && Ascending(pairs)
    && forall s: nat, r: nat :: (s, r) in pairs <==> r < |x.xrls| && s in Mentions(x.xrls[r])
  }

  /** Where the rules of each symbol begin, and the rules. */
  datatype Index = Index(offsets: seq<nat>, rules: seq<nat>)

  /** Offset `s` is where the pairs of symbol `s` begin, among the first `upto`. */
  ghost predicate OffsetOk(pairs: seq<(nat, nat)>, offset: nat, s: nat, upto: nat) {
    && offset <= upto <= |pairs|
    && forall k :: 0 <= k < upto ==> (k < offset <==> pairs[k].0 < s)
  }

  ghost predicate OffsetsOk(pairs: seq<(nat, nat)>, offsets: seq<nat>, upto: nat) {
    forall s :: 0 <= s < |offsets| ==> OffsetOk(pairs, offsets[s], s, upto)
  }

  /** How many symbols have their offsets after `k` pairs. */
  ghost function Reached(pairs: seq<(nat, nat)>, k: nat): nat
    requires k <= |pairs|
  {
    if k == 0 then 0 else pairs[k - 1].0 + 1
  }

  method BuildIndex(x: External, pairs: seq<(nat, nat)>) returns (index: Index)
    requires SymbolsExist(x) && PairsAre(x, pairs)
    ensures IndexOk(x, index)
  {
    hide SymbolsExist, OffsetsOk, IndexOk;
    var offsets: seq<nat> := [];
    var rules: seq<nat> := [];
    NoOffsets(pairs);
    for k := 0 to |pairs|
      invariant |rules| == k && forall i :: 0 <= i < k ==> rules[i] == pairs[i].1
      invariant OffsetsOk(pairs, offsets, k) && |offsets| == Reached(pairs, k) <= x.xsyCount
    {
      var current := pairs[k].0;
      PairExists(x, pairs, k);
      while |offsets| <= current
        invariant OffsetsOk(pairs, offsets, k) && Reached(pairs, k) <= |offsets| <= current + 1
        decreases current + 1 - |offsets|
      {
        OffsetHere(pairs, offsets, k);
        offsets := offsets + [k];
      }
      rules := rules + [pairs[k].1];
      OffsetsNext(pairs, offsets, k);
    }
    while |offsets| <= x.xsyCount
      invariant OffsetsOk(pairs, offsets, |pairs|) && Reached(pairs, |pairs|) <= |offsets| <= x.xsyCount + 1
    {
      OffsetHere(pairs, offsets, |pairs|);
      offsets := offsets + [|pairs|];
    }
    index := Index(offsets, rules);
    IndexIs(x, pairs, index);
  }

  lemma {:induction false} NoOffsets(pairs: seq<(nat, nat)>)
    ensures OffsetsOk(pairs, [], 0)
  {
  }

  lemma {:induction false} PairExists(x: External, pairs: seq<(nat, nat)>, k: nat)
    requires SymbolsExist(x) && PairsAre(x, pairs) && k < |pairs|
    ensures Reached(pairs, k) <= pairs[k].0 + 1 && pairs[k].0 < x.xsyCount
  {
    assert (pairs[k].0, pairs[k].1) in pairs;
  }

  /** A symbol past all pairs so far gets the end of them as its offset. */
  lemma {:induction false} OffsetHere(pairs: seq<(nat, nat)>, offsets: seq<nat>, k: nat)
    requires Ascending(pairs) && OffsetsOk(pairs, offsets, k) && k <= |pairs| && Reached(pairs, k) <= |offsets|
    ensures OffsetsOk(pairs, offsets + [k], k)
  {
    assert forall i :: 0 <= i < k - 1 ==> pairs[i].0 <= pairs[k - 1].0;
    assert OffsetOk(pairs, k, |offsets|, k);
  }

  lemma {:induction false} OffsetsNext(pairs: seq<(nat, nat)>, offsets: seq<nat>, k: nat)
    requires OffsetsOk(pairs, offsets, k) && k < |pairs| && |offsets| == pairs[k].0 + 1
    ensures OffsetsOk(pairs, offsets, k + 1)
  {
    forall s | 0 <= s < |offsets|
      ensures OffsetOk(pairs, offsets[s], s, k + 1)
    {
      assert OffsetOk(pairs, offsets[s], s, k);
    }
  }

  ghost predicate RangeOk(index: Index, s: nat) {
    s + 1 < |index.offsets| && index.offsets[s] <= index.offsets[s + 1] <= |index.rules|
  }

  /** The rules between two offsets are those that mention the symbol. */
  ghost predicate IndexOk(x: External, index: Index) {
    && |index.offsets| == x.xsyCount + 1
    && (forall s: nat :: s < x.xsyCount ==> RangeOk(index, s))
    && (forall s: nat, r: nat :: s < x.xsyCount ==> (Listed(index, s, r) <==> r < |x.xrls| && s in Mentions(x.xrls[r])))
  }

  ghost predicate Listed(index: Index, s: nat, r: nat) {
    s + 1 < |index.offsets| && exists k :: index.offsets[s] <= k < index.offsets[s + 1] && k < |index.rules| && index.rules[k] == r
  }

  lemma {:induction false} IndexIs(x: External, pairs: seq<(nat, nat)>, index: Index)
    requires PairsAre(x, pairs) && OffsetsOk(pairs, index.offsets, |pairs|) && |index.offsets| == x.xsyCount + 1
    requires |index.rules| == |pairs| && forall i :: 0 <= i < |pairs| ==> index.rules[i] == pairs[i].1
    ensures IndexOk(x, index)
  {
    hide Mentions;
    forall s: nat | s < x.xsyCount
      ensures RangeOk(index, s)
    {
      var a, b := index.offsets[s], index.offsets[s + 1];
      assert OffsetOk(pairs, a, s, |pairs|) && OffsetOk(pairs, b, s + 1, |pairs|);
      if a > 0 {
        assert pairs[a - 1].0 < s;
      }
    }
    forall s: nat, r: nat | s < x.xsyCount
      ensures Listed(index, s, r) <==> r < |x.xrls| && s in Mentions(x.xrls[r])
    {
      ListedIs(x, pairs, index, s, r);
    }
  }

  lemma {:induction false} ListedIs(x: External, pairs: seq<(nat, nat)>, index: Index, s: nat, r: nat)
    requires PairsAre(x, pairs) && OffsetsOk(pairs, index.offsets, |pairs|) && |index.offsets| == x.xsyCount + 1 && s < x.xsyCount
    requires |index.rules| == |pairs| && forall i :: 0 <= i < |pairs| ==> index.rules[i] == pairs[i].1
    ensures Listed(index, s, r) <==> r < |x.xrls| && s in Mentions(x.xrls[r])
  {
    hide Mentions, Ascending;
    var a, b := index.offsets[s], index.offsets[s + 1];
    assert OffsetOk(pairs, a, s, |pairs|) && OffsetOk(pairs, b, s + 1, |pairs|);
    if Listed(index, s, r) {
      var k :| a <= k < b && k < |index.rules| && index.rules[k] == r;
      assert pairs[k] == (s, r);
      assert (s, r) in pairs;
    }
    if (s, r) in pairs {
      var k :| 0 <= k < |pairs| && pairs[k] == (s, r);
      assert index.rules[k] == r;
    }
  }

  // ---- The closure ----

  /** All that the rule needs is in the set. */
  ghost predicate Covered(r: Xrl, symbols: set<nat>) {
    && RhsOf(r) != []
    && (forall s :: s in RhsOf(r) ==> s in symbols)
    && (r.Sequence? && r.minimum >= 2 && r.separator.Some? ==> r.separator.value in symbols)
  }

  ghost predicate Closed(x: External, symbols: set<nat>) {
    forall r :: 0 <= r < |x.xrls| && Covered(x.xrls[r], symbols) ==> x.xrls[r].lhs in symbols
  }

  /** Whatever holds `base` and is closed holds `symbols`. */
  ghost predicate Least(x: External, base: set<nat>, symbols: set<nat>) {
    forall z: set<nat> :: base <= z && Closed(x, z) ==> symbols <= z
  }

  /** Rules that are covered by symbols already taken from the stack have been applied. */
  ghost predicate Applied(x: External, symbols: set<nat>, stack: seq<nat>) {
    forall r :: 0 <= r < |x.xrls| && Covered(x.xrls[r], symbols - Pushed(stack)) ==> x.xrls[r].lhs in symbols
  }

  ghost function Pushed(stack: seq<nat>): set<nat> {
    set s | s in stack
  }

  ghost predicate StackOk(symbols: set<nat>, stack: seq<nat>) {
    && (forall s :: s in stack ==> s in symbols)
    && (forall i, j :: 0 <= i < j < |stack| ==> stack[i] != stack[j])
  }

  // ---- Facts about the stack ----

  lemma {:induction false} StackSize(symbols: set<nat>, stack: seq<nat>)
    requires StackOk(symbols, stack)
    ensures |Pushed(stack)| == |stack| && Pushed(stack) <= symbols
    decreases |stack|
  {
    if stack != [] {
      var n := |stack| - 1;
      StackSize(symbols, stack[..n]);
      assert stack == stack[..n] + [stack[n]];
      assert Pushed(stack) == Pushed(stack[..n]) + {stack[n]};
    }
  }

  lemma {:induction false} SubsetSize(a: set<nat>, b: set<nat>)
    requires a <= b
    ensures |a| <= |b| && (|a| == |b| ==> a == b)
    decreases |a|
  {
    if a != {} {
      var e :| e in a;
      SubsetSize(a - {e}, b - {e});
      assert a == (a - {e}) + {e} && b == (b - {e}) + {e};
    } else if b != {} {
      var e :| e in b;
      assert b == (b - {e}) + {e};
    }
  }

  lemma {:induction false} ElementsBound(bv: BitVector)
    ensures |bv.Elements()| <= bv.bits && forall s :: s in bv.Elements() ==> s < bv.bits
  {
    hide In;
    assert bv.Elements() <= Range(0, bv.bits);
    SubsetSize(bv.Elements(), Range(0, bv.bits));
  }

  /** A symbol not in the set yet has room on the stack. */
  lemma {:induction false} StackRoom(bv: BitVector, stack: seq<nat>, s: nat)
    requires StackOk(bv.Elements(), stack) && s < bv.bits && s !in bv.Elements()
    ensures |stack| < bv.bits
  {
    hide In, StackOk;
    StackSize(bv.Elements(), stack);
    ElementsBound(bv);
    var e := bv.Elements();
    SubsetSize(Pushed(stack), e);
    SubsetSize(e + {s}, Range(0, bv.bits));
    assert |e + {s}| == |e| + 1;
  }

  lemma {:induction false} StackPush(symbols: set<nat>, stack: seq<nat>, s: nat)
    requires StackOk(symbols, stack) && s !in symbols
    ensures StackOk(symbols + {s}, stack + [s]) && Pushed(stack + [s]) == Pushed(stack) + {s}
  {
    var stack' := stack + [s];
    assert stack'[|stack|] == s;
    assert forall i :: 0 <= i < |stack| ==> stack'[i] == stack[i] && stack[i] in stack;
    assert forall e :: e in stack' <==> e in stack || e == s;
  }

  lemma {:induction false} StackPop(symbols: set<nat>, stack: seq<nat>)
    requires StackOk(symbols, stack) && stack != []
    ensures var n := |stack| - 1;
            && StackOk(symbols, stack[..n]) && stack[n] in symbols
            && Pushed(stack) == Pushed(stack[..n]) + {stack[n]} && stack[n] !in Pushed(stack[..n])
  {
    var n := |stack| - 1;
    assert stack == stack[..n] + [stack[n]];
    assert forall e :: e in stack <==> e in stack[..n] || e == stack[n];
    assert stack[n] in stack;
  }

  // ---- Facts about the closure ----

  lemma {:induction false} BaseLeast(x: External, base: set<nat>)
    ensures Least(x, base, base)
  {
  }

  lemma {:induction false} LeastGrows(x: External, base: set<nat>, symbols: set<nat>, r: nat)
    requires Least(x, base, symbols) && r < |x.xrls| && Covered(x.xrls[r], symbols)
    ensures Least(x, base, symbols + {x.xrls[r].lhs})
  {
    hide RhsOf;
    forall z: set<nat> | base <= z && Closed(x, z)
      ensures symbols + {x.xrls[r].lhs} <= z
    {
    }
  }

  /** At first nothing has been taken from the stack. */
  lemma {:induction false} AllPushed(x: External, base: set<nat>, stack: seq<nat>)
    requires Pushed(stack) == base
    ensures Applied(x, base, stack)
  {
    assert base - Pushed(stack) == {};
    forall r | 0 <= r < |x.xrls|
      ensures !Covered(x.xrls[r], {})
    {
      assert RhsOf(x.xrls[r]) != [] ==> RhsOf(x.xrls[r])[0] in RhsOf(x.xrls[r]);
    }
  }

  lemma {:induction false} NoneLeft(x: External, symbols: set<nat>)
    requires Applied(x, symbols, [])
    ensures Closed(x, symbols)
  {
    assert symbols - Pushed([]) == symbols;
  }

  /** A rule whose last symbol has just been taken from the stack is listed under it. */
  lemma {:induction false} PopApplied(x: External, index: Index, before: set<nat>, after: set<nat>, stack: seq<nat>, stack': seq<nat>, symbol: nat)
    requires IndexOk(x, index) && symbol < x.xsyCount && Applied(x, before, stack) && before <= after
    requires symbol in before && Pushed(stack) <= before
    requires Pushed(stack') == Pushed(stack) - {symbol} + (after - before)
    requires forall r: nat :: Listed(index, symbol, r) && r < |x.xrls| && Covered(x.xrls[r], before) ==> x.xrls[r].lhs in after
    ensures Applied(x, after, stack')
  {
    hide RhsOf, Listed;
    var done, done' := before - Pushed(stack), after - Pushed(stack');
    assert done' <= done + {symbol};
    forall r | 0 <= r < |x.xrls| && Covered(x.xrls[r], done')
      ensures x.xrls[r].lhs in after
    {
      NeedsSymbol(x.xrls[r], done, done', symbol);
      assert Listed(index, symbol, r) <==> symbol in Mentions(x.xrls[r]);
    }
  }

  lemma {:induction false} NeedsSymbol(r: Xrl, done: set<nat>, done': set<nat>, symbol: nat)
    requires Covered(r, done') && done' <= done + {symbol}
    ensures Covered(r, done) || symbol in Mentions(r)
  {
    hide RhsOf;
    if symbol !in Mentions(r) {
      forall s | s in RhsOf(r)
        ensures s in done
      {
        assert s in Mentions(r);
      }
      if r.Sequence? && r.separator.Some? {
        assert r.separator.value in Separators(r.separator);
        assert r.separator.value in Mentions(r);
      }
    }
  }

  // ---- The algorithm ----

  /** Every set bit, each once. */
  method PushAll(bv: BitVector) returns (stack: seq<nat>)
    requires bv.Valid()
    modifies bv.words
    ensures bv.Elements() == old(bv.Elements())
    ensures StackOk(bv.Elements(), stack) && Pushed(stack) == bv.Elements()
  {
    hide In;
    ghost var all := bv.Elements();
    stack := [];
    var start := 0;
    var found, min, max := bv.Scan(start);
    assert bv.Elements() == all;
    while found
      invariant bv.Elements() == all
      invariant StackOk(all, stack) && forall s: nat :: s in stack <==> s in all && s < start
      invariant found ==> start <= min <= max < bv.bits
      invariant found ==> forall i: nat :: start <= i < min ==> i !in all
      invariant found ==> (forall i: nat :: min <= i <= max ==> i in all) && max + 1 !in all
      invariant !found ==> forall i: nat :: start <= i ==> i !in all
      decreases found, bv.bits + 2 - start
    {
      stack := PushRun(all, stack, start, min, max);
      start := max + 2;
      found, min, max := bv.Scan(start);
      assert bv.Elements() == all;
    }
  }

  method PushRun(ghost all: set<nat>, before: seq<nat>, ghost start: nat, min: nat, max: nat) returns (stack: seq<nat>)
    requires StackOk(all, before) && forall s: nat :: s in before <==> s in all && s < start
    requires start <= min <= max && (forall i: nat :: start <= i < min ==> i !in all)
    requires (forall i: nat :: min <= i <= max ==> i in all) && max + 1 !in all
    ensures StackOk(all, stack) && forall s: nat :: s in stack <==> s in all && s < max + 2
  {
    stack := before;
    for s := min to max + 1
      invariant StackOk(all, stack) && forall e: nat :: e in stack <==> e in all && e < s
    {
      PushNext(all, stack, s);
      stack := stack + [s];
    }
  }

  lemma {:induction false} PushNext(all: set<nat>, stack: seq<nat>, s: nat)
    requires StackOk(all, stack) && s in all && forall e: nat :: e in stack <==> e in all && e < s
    ensures StackOk(all, stack + [s]) && forall e: nat :: e in stack + [s] <==> e in all && e < s + 1
  {
    var stack' := stack + [s];
    assert stack'[|stack|] == s;
    assert forall i :: 0 <= i < |stack| ==> stack'[i] == stack[i] && stack[i] in stack;
    assert forall e :: e in stack' <==> e in stack || e == s;
  }

  /** Whether the set holds all that the rule needs. */
  method IsCovered(rule: Xrl, bv: BitVector) returns (yes: bool)
    requires bv.Valid() && RhsOf(rule) != [] && forall s :: s in Mentions(rule) ==> s < bv.bits
    ensures yes <==> Covered(rule, bv.Elements())
  {
    hide In;
    var rhs := RhsOf(rule);
    assert forall s :: s in rhs ==> s in Mentions(rule);
    hide RhsOf;
    for ix := 0 to |rhs|
      invariant forall k :: 0 <= k < ix ==> bv.Has(rhs[k])
    {
      assert rhs[ix] in rhs;
      var has := bv.Test(rhs[ix]);
      if !has {
        return false;
      }
    }
    if rule.Sequence? && rule.minimum >= 2 {
      if rule.separator.Some? {
        assert rule.separator.value in Separators(rule.separator);
        assert rule.separator.value in Mentions(rule);
        var has := bv.Test(rule.separator.value);
        return has;
      }
    }
    return true;
  }

  /** Apply every rule listed under the symbol that is now covered. */
  method ApplyRules(x: External, index: Index, bv: BitVector, symbol: nat, before: seq<nat>, ghost base: set<nat>) returns (stack: seq<nat>)
    requires SymbolsExist(x) && IndexOk(x, index) && bv.Valid() && bv.bits == x.xsyCount && symbol < x.xsyCount
    requires StackOk(bv.Elements(), before) && Least(x, base, bv.Elements())
    modifies bv.words
    ensures old(bv.Elements()) <= bv.Elements() && StackOk(bv.Elements(), stack) && Least(x, base, bv.Elements())
    ensures Pushed(stack) == Pushed(before) + (bv.Elements() - old(bv.Elements()))
    ensures |stack| - |before| == |bv.Elements()| - |old(bv.Elements())|
    ensures forall r: nat :: Listed(index, symbol, r) && r < |x.xrls| && Covered(x.xrls[r], old(bv.Elements())) ==> x.xrls[r].lhs in bv.Elements()
  {
    hide SymbolsExist, IndexOk, Covered, In, StackOk, Least, Listed, Pushed, RhsOf, Mentions;
    ghost var first := bv.Elements();
    stack := before;
    ListBounds(x, index, symbol);
    for p := index.offsets[symbol] to index.offsets[symbol + 1]
      invariant first <= bv.Elements() && StackOk(bv.Elements(), stack) && Least(x, base, bv.Elements())
      invariant Pushed(stack) == Pushed(before) + (bv.Elements() - first)
      invariant |stack| - |before| == |bv.Elements()| - |first|
      invariant forall k :: index.offsets[symbol] <= k < p && index.rules[k] < |x.xrls| && Covered(x.xrls[index.rules[k]], first) ==> x.xrls[index.rules[k]].lhs in bv.Elements()
    {
      ListedRule(x, index, symbol, p);
      var rule := x.xrls[index.rules[p]];
      var has := bv.Test(rule.lhs);
      if !has {
        var covered := IsCovered(rule, bv);
        if covered {
          ghost var e := bv.Elements();
          StackRoom(bv, stack, rule.lhs);
          StackPush(e, stack, rule.lhs);
          LeastGrows(x, base, e, index.rules[p]);
          bv.Set(rule.lhs);
          assert bv.Elements() == e + {rule.lhs};
          stack := stack + [rule.lhs];
        } else {
          NotCovered(rule, first, bv.Elements());
        }
      }
    }
    AllListed(x, index, symbol, first, bv.Elements());
  }

  lemma {:induction false} NotCovered(rule: Xrl, first: set<nat>, symbols: set<nat>)
    requires first <= symbols && !Covered(rule, symbols)
    ensures !Covered(rule, first)
  {
    hide RhsOf;
  }

  lemma {:induction false} ListBounds(x: External, index: Index, symbol: nat)
    requires IndexOk(x, index) && symbol < x.xsyCount
    ensures symbol + 1 < |index.offsets| && index.offsets[symbol] <= index.offsets[symbol + 1] <= |index.rules|
  {
    hide Listed, Mentions;
    assert RangeOk(index, symbol);
  }

  /** A listed rule exists, mentions the symbol, and so has a right-hand side. */
  lemma {:induction false} ListedRule(x: External, index: Index, symbol: nat, p: nat)
    requires SymbolsExist(x) && IndexOk(x, index) && symbol < x.xsyCount
    requires symbol + 1 < |index.offsets| && index.offsets[symbol] <= p < index.offsets[symbol + 1] <= |index.rules|
    ensures index.rules[p] < |x.xrls| && x.xrls[index.rules[p]].lhs < x.xsyCount
    ensures RhsOf(x.xrls[index.rules[p]]) != [] && forall s :: s in Mentions(x.xrls[index.rules[p]]) ==> s < x.xsyCount
  {
    assert Listed(index, symbol, index.rules[p]);
  }

  lemma {:induction false} AllListed(x: External, index: Index, symbol: nat, first: set<nat>, symbols: set<nat>)
    requires symbol + 1 < |index.offsets| && index.offsets[symbol] <= index.offsets[symbol + 1] <= |index.rules|
    requires forall k :: index.offsets[symbol] <= k < index.offsets[symbol + 1] && index.rules[k] < |x.xrls| && Covered(x.xrls[index.rules[k]], first)
               ==> x.xrls[index.rules[k]].lhs in symbols
    ensures forall r: nat :: Listed(index, symbol, r) && r < |x.xrls| && Covered(x.xrls[r], first) ==> x.xrls[r].lhs in symbols
  {
    hide Covered;
  }

  /** The set of bits becomes the least closed set that holds it.  The stack never holds a
      symbol twice, so it has room for all. */
  method RhsClosure(x: External, index: Index, bv: BitVector)
    requires SymbolsExist(x) && IndexOk(x, index) && bv.Valid() && bv.bits == x.xsyCount
    modifies bv.words
    ensures old(bv.Elements()) <= bv.Elements() && Closed(x, bv.Elements()) && Least(x, old(bv.Elements()), bv.Elements())
  {
    hide SymbolsExist, IndexOk, Covered, In, StackOk, Applied, Closed, Least, Listed;
    ghost var base := bv.Elements();
    var stack := PushAll(bv);
    BaseLeast(x, base);
    AllPushed(x, base, stack);
    while stack != []
      invariant base <= bv.Elements() && StackOk(bv.Elements(), stack)
      invariant Applied(x, bv.Elements(), stack) && Least(x, base, bv.Elements())
      decreases bv.bits - |bv.Elements()|, |stack|
    {
      ghost var before, whole := bv.Elements(), stack;
      var symbol := stack[|stack| - 1];
      StackPop(before, whole);
      StackSize(before, whole);
      ElementsBound(bv);
      stack := stack[..|stack| - 1];
      stack := ApplyRules(x, index, bv, symbol, stack, base);
      PopApplied(x, index, before, bv.Elements(), whole, stack, symbol);
      ElementsBound(bv);
      SubsetSize(before, bv.Elements());
    }
    NoneLeft(x, bv.Elements());
  }
}
