/** The rewrite of external rules into internal ones: sequences become left recursion, and
    rules with symbols that may be empty are cut into pieces with at most two such symbols. */
module Rewriters {
  import opened Options
  import opened InternalRules
  import opened Externals
  import opened Pieces
  import opened Encodings

  /** The factor positions in order, and where the symbols that all may be empty begin. */
  ghost predicate FactorList(c: Census, syms: seq<nat>, upto: nat, factors: seq<nat>, suffix: nat) {
    && upto <= |syms|
    && (forall i, j :: 0 <= i < j < |factors| ==> factors[i] < factors[j])
    && (forall i :: 0 <= i < |factors| ==> factors[i] < upto && IsFactor(c, syms, factors[i]))
    && (forall q: nat :: q < upto && IsFactor(c, syms, q) ==> q in factors)
    && suffix <= upto
    && (forall q :: suffix <= q < upto ==> syms[q] in c.nullable)
    && (suffix > 0 ==> syms[suffix - 1] !in c.nullable)
  }

  /** Factors before index `ix` are behind `start`. */
  ghost predicate AtFactor(factors: seq<nat>, ix: nat, start: nat) {
    ix < |factors| && start <= factors[ix] && (ix > 0 ==> factors[ix - 1] < start)
  }

  /** The next two factors are the only ones up to `end`. */
  lemma {:induction false} NextFactors(c: Census, syms: seq<nat>, factors: seq<nat>, suffix: nat, ix: nat, start: nat, end: nat, f2: nat)
    requires FactorList(c, syms, |syms|, factors, suffix) && AtFactor(factors, ix, start)
    requires factors[ix] < end <= |syms| && factors[ix] < f2
    requires if ix + 1 < |factors| then f2 == factors[ix + 1] else f2 == |syms|
    requires ix + 2 < |factors| ==> end <= factors[ix + 2]
    ensures FactorsAre(c, syms, start, end, factors[ix], f2)
  {
    forall q: nat | start <= q < end && IsFactor(c, syms, q)
      ensures q == factors[ix] || q == f2
    {
      var k :| 0 <= k < |factors| && factors[k] == q;
    }
  }

  lemma {:induction false} SuffixIs(c: Census, syms: seq<nat>, factors: seq<nat>, suffix: nat)
    requires FactorList(c, syms, |syms|, factors, suffix)
    ensures SuffixOk(c, syms, suffix)
  {
  }

  lemma {:induction false} NoFactors(c: Census, syms: seq<nat>, suffix: nat)
    requires FactorList(c, syms, |syms|, [], suffix)
    ensures NoFactor(c, syms, 0, |syms|)
  {
  }

  /** The symbols of a used rule have internal symbols. */
  lemma {:induction false} SymbolReady(x: External, c: Census, nsys: seq<Nsy>, nsyOf: map<nat, nat>, nullOf: map<nat, nat>, s: nat)
    requires Ready(x, c) && SymbolsAre(c, nsys, nsyOf, nullOf, x.xsyCount) && s in c.known
    ensures s in nsyOf && Means(nsys, nsyOf[s], SymbolMeaning(c, s, false))
    ensures s in c.nullable || s in c.nulling ==> s in nullOf && Means(nsys, nullOf[s], Null(s)) && SymbolMeaning(c, s, true) == Null(s)
  {
  }

  /** A piece whose empty symbols can be empty, and which is not all empty, may be used. */
  lemma {:induction false} PieceReady(x: External, c: Census, r: nat, start: nat, end: nat, null1: int, null2: int, from: nat, suffix: nat, more: bool)
    requires Ready(x, c) && r in c.used && r < |x.xrls| && x.xrls[r].Bnf?
    requires start <= end <= |Rhs(x, r)| && (more <==> end < |Rhs(x, r)|) && suffix <= from && (more ==> start < end)
    requires SuffixOk(c, Rhs(x, r), suffix)
    requires null1 == -1 || (0 <= null1 && IsFactor(c, Rhs(x, r), null1))
    requires null2 == -1 || (0 <= null2 && IsFactor(c, Rhs(x, r), null2))
    requires more || (exists q :: start <= q < end && q < |Rhs(x, r)| && !NullAt(c, Rhs(x, r), q, null1, null2, from))
    ensures PlanOk(x, c, Piece(r, start, Nulls(c, Rhs(x, r), start, end, null1, null2, from), more))
  {
    var syms := Rhs(x, r);
    var ns := Nulls(c, syms, start, end, null1, null2, from);
    var part := syms[start..end];
    forall k | 0 <= k < |ns|
      ensures (part[k] in c.nulling ==> ns[k]) && (ns[k] ==> part[k] in c.nullable)
    {
      assert part[k] == syms[start + k];
    }
    if !more {
      var q :| start <= q < end && !NullAt(c, syms, q, null1, null2, from);
      assert !ns[q - start];
    }
  }

  /** All pieces of a group may be used. */
  ghost predicate AllOk(x: External, c: Census, group: seq<Plan>) {
    forall k: nat :: k < |group| ==> PlanOk(x, c, group[k])
  }

  /** A symbol that may not be empty, or a factor that is not, keeps a piece from being all empty. */
  lemma {:induction false} NotNullAt(c: Census, syms: seq<nat>, q: nat, null1: int, null2: int, from: nat)
    requires q < |syms| && syms[q] !in c.nulling && q != null1 && q != null2 && q < from
    ensures !NullAt(c, syms, q, null1, null2, from)
  {
  }

  lemma {:induction false} SplitReady(x: External, c: Census, r: nat, start: nat, end: nat, f1: nat, suffix: nat)
    requires Ready(x, c) && r in c.used && r < |x.xrls| && x.xrls[r].Bnf?
    requires FactorsAre(c, Rhs(x, r), start, end, f1, end) && SuffixOk(c, Rhs(x, r), suffix) && suffix <= end < |Rhs(x, r)|
    ensures AllOk(x, c, SplitPlans(c, Rhs(x, r), r, start, end, f1, start < suffix))
  {
    var syms := Rhs(x, r);
    NotNullAt(c, syms, f1, -1, -1, end);
    if start < suffix {
      NotNullAt(c, syms, suffix - 1, f1, -1, end);
    }
    hide Ready, NullAt, PlanOk;
    PieceReady(x, c, r, start, end, -1, -1, |syms|, suffix, true);
    PieceReady(x, c, r, start, |syms|, -1, -1, end, suffix, false);
    PieceReady(x, c, r, start, end, f1, -1, |syms|, suffix, true);
    if start < suffix {
      PieceReady(x, c, r, start, |syms|, f1, -1, end, suffix, false);
    }
  }

  lemma {:induction false} PairReady(x: External, c: Census, r: nat, start: nat, end: nat, f1: nat, f2: nat, suffix: nat, more: bool, both: bool)
    requires Ready(x, c) && r in c.used && r < |x.xrls| && x.xrls[r].Bnf?
    requires FactorsAre(c, Rhs(x, r), start, end, f1, f2) && f2 < end && SuffixOk(c, Rhs(x, r), suffix)
    requires more <==> end < |Rhs(x, r)|
    requires both && !more ==> start < suffix
    ensures AllOk(x, c, PairPlans(c, Rhs(x, r), r, start, end, f1, f2, more, both))
  {
    var syms := Rhs(x, r);
    var n := |syms|;
    NotNullAt(c, syms, f1, -1, -1, n);
    NotNullAt(c, syms, f1, -1, f2, n);
    NotNullAt(c, syms, f2, f1, -1, n);
    if both && !more {
      NotNullAt(c, syms, suffix - 1, f1, f2, n);
    }
    hide Ready, NullAt, PlanOk;
    PieceReady(x, c, r, start, end, -1, -1, n, suffix, more);
    PieceReady(x, c, r, start, end, -1, f2, n, suffix, more);
    PieceReady(x, c, r, start, end, f1, -1, n, suffix, more);
    if both {
      PieceReady(x, c, r, start, end, f1, f2, n, suffix, more);
    }
  }

  lemma {:induction false} LastReady(x: External, c: Census, r: nat, start: nat, f1: nat, suffix: nat)
    requires Ready(x, c) && r in c.used && r < |x.xrls| && x.xrls[r].Bnf?
    requires FactorsAre(c, Rhs(x, r), start, |Rhs(x, r)|, f1, |Rhs(x, r)|) && SuffixOk(c, Rhs(x, r), suffix)
    ensures AllOk(x, c, LastPlans(c, Rhs(x, r), r, start, f1, start < suffix))
  {
    var syms := Rhs(x, r);
    var n := |syms|;
    NotNullAt(c, syms, f1, -1, -1, n);
    if start < suffix {
      NotNullAt(c, syms, suffix - 1, f1, -1, n);
    }
    hide Ready, NullAt, PlanOk;
    PieceReady(x, c, r, start, n, -1, -1, n, suffix, false);
    if start < suffix {
      PieceReady(x, c, r, start, n, f1, -1, n, suffix, false);
    }
  }

  // ---- One group and on to the next ----

  lemma {:induction false} SplitStep(c: Census, plans: seq<Plan>, r: nat, syms: seq<nat>, start: nat, end: nat, f1: nat, suffix: nat)
    requires NullsOk(c) && SoFar(c, plans, r, syms, start) && SuffixOk(c, syms, suffix)
    requires FactorsAre(c, syms, start, end, f1, end) && suffix <= end
    ensures NewPlans(plans, SplitPlans(c, syms, r, start, end, f1, start < suffix))
    ensures SoFar(c, plans + SplitPlans(c, syms, r, start, end, f1, start < suffix), r, syms, end)
  {
    var g := SplitPlans(c, syms, r, start, end, f1, start < suffix);
    hide SoFar, SuffixOk, NullsOk, ExactlyOne, AllNull, ValidNulls;
    forall nulls | ValidNulls(c, syms[start..], nulls) && !AllNull(nulls)
      ensures ExactlyOne(g, r, start, nulls)
    {
      SplitExact(c, syms, r, start, end, f1, suffix, start < suffix, nulls);
    }
    SplitUnrepeated(c, syms, r, start, end, f1, start < suffix);
    hide FactorsAre, Unrepeated;
    GroupNew(c, plans, g, r, syms, start);
    GroupDone(c, plans, g, r, syms, start, end);
  }

  lemma {:induction false} PairStep(c: Census, plans: seq<Plan>, r: nat, syms: seq<nat>, start: nat, end: nat, f1: nat, f2: nat, suffix: nat)
    requires NullsOk(c) && SoFar(c, plans, r, syms, start) && SuffixOk(c, syms, suffix)
    requires FactorsAre(c, syms, start, end, f1, f2) && f2 < end < suffix
    ensures NewPlans(plans, PairPlans(c, syms, r, start, end, f1, f2, true, true))
    ensures SoFar(c, plans + PairPlans(c, syms, r, start, end, f1, f2, true, true), r, syms, end)
  {
    var g := PairPlans(c, syms, r, start, end, f1, f2, true, true);
    hide SoFar, SuffixOk, NullsOk, ExactlyOne, AllNull, ValidNulls;
    forall nulls | ValidNulls(c, syms[start..], nulls) && !AllNull(nulls)
      ensures ExactlyOne(g, r, start, nulls)
    {
      PairExact(c, syms, r, start, end, f1, f2, true, suffix, true, nulls);
    }
    PairUnrepeated(c, syms, r, start, end, f1, f2, true, true);
    hide FactorsAre, Unrepeated;
    GroupNew(c, plans, g, r, syms, start);
    GroupDone(c, plans, g, r, syms, start, end);
  }

  lemma {:induction false} PairEnd(c: Census, plans: seq<Plan>, r: nat, syms: seq<nat>, start: nat, f1: nat, f2: nat, suffix: nat)
    requires NullsOk(c) && SoFar(c, plans, r, syms, start) && SuffixOk(c, syms, suffix)
    requires FactorsAre(c, syms, start, |syms|, f1, f2) && f2 < |syms|
    ensures NewPlans(plans, PairPlans(c, syms, r, start, |syms|, f1, f2, false, start < suffix))
    ensures SoFar(c, plans + PairPlans(c, syms, r, start, |syms|, f1, f2, false, start < suffix), r, syms, |syms| + 1)
  {
    var g := PairPlans(c, syms, r, start, |syms|, f1, f2, false, start < suffix);
    hide SoFar, SuffixOk, NullsOk, ExactlyOne, AllNull, ValidNulls;
    forall nulls | ValidNulls(c, syms[start..], nulls) && !AllNull(nulls)
      ensures ExactlyOne(g, r, start, nulls)
    {
      PairExact(c, syms, r, start, |syms|, f1, f2, false, suffix, start < suffix, nulls);
    }
    PairUnrepeated(c, syms, r, start, |syms|, f1, f2, false, start < suffix);
    hide FactorsAre, Unrepeated;
    GroupNew(c, plans, g, r, syms, start);
    GroupDone(c, plans, g, r, syms, start, |syms| + 1);
  }

  lemma {:induction false} LastEnd(c: Census, plans: seq<Plan>, r: nat, syms: seq<nat>, start: nat, f1: nat, suffix: nat)
    requires NullsOk(c) && SoFar(c, plans, r, syms, start) && SuffixOk(c, syms, suffix)
    requires FactorsAre(c, syms, start, |syms|, f1, |syms|)
    ensures NewPlans(plans, LastPlans(c, syms, r, start, f1, start < suffix))
    ensures SoFar(c, plans + LastPlans(c, syms, r, start, f1, start < suffix), r, syms, |syms| + 1)
  {
    var g := LastPlans(c, syms, r, start, f1, start < suffix);
    hide SoFar, SuffixOk, NullsOk, ExactlyOne, AllNull, ValidNulls;
    forall nulls | ValidNulls(c, syms[start..], nulls) && !AllNull(nulls)
      ensures ExactlyOne(g, r, start, nulls)
    {
      LastExact(c, syms, r, start, f1, suffix, start < suffix, nulls);
    }
    LastUnrepeated(c, syms, r, start, f1, start < suffix);
    hide FactorsAre, Unrepeated;
    GroupNew(c, plans, g, r, syms, start);
    GroupDone(c, plans, g, r, syms, start, |syms| + 1);
  }

  lemma {:induction false} PlainEnd(c: Census, plans: seq<Plan>, r: nat, syms: seq<nat>)
    requires NullsOk(c) && SoFar(c, plans, r, syms, 0) && NoFactor(c, syms, 0, |syms|)
    ensures SoFar(c, plans + [Piece(r, 0, Nulls(c, syms, 0, |syms|, -1, -1, |syms|), false)], r, syms, |syms| + 1)
  {
    var g := [Piece(r, 0, Nulls(c, syms, 0, |syms|, -1, -1, |syms|), false)];
    assert syms[0..] == syms;
    hide SoFar, NullsOk, ExactlyOne, AllNull, ValidNulls, NoFactor;
    forall nulls | ValidNulls(c, syms[0..], nulls) && !AllNull(nulls)
      ensures ExactlyOne(g, r, 0, nulls)
    {
      PlainExact(c, syms, r, nulls);
    }
    GroupDone(c, plans, g, r, syms, 0, |syms| + 1);
  }

  /** Past the end nothing is left to provide for. */
  lemma {:induction false} AllDone(x: External, c: Census, plans: seq<Plan>, r: nat)
    requires r < |x.xrls| && x.xrls[r].Bnf? && SoFar(c, plans, r, Rhs(x, r), |Rhs(x, r)| + 1)
    requires forall k: nat :: k < |plans| ==> PlanOk(x, c, plans[k])
    ensures RuleDone(x, c, plans, r)
  {
    hide Covers;
    forall k: nat | k < |plans| && IsMore(plans[k], r)
      ensures EndOf(plans[k]) != |Rhs(x, r)| + 1
    {
      assert PlanOk(x, c, plans[k]);
    }
  }

  ghost predicate GrownFor(plans: seq<Plan>, plans': seq<Plan>, r: nat) {
    && |plans| <= |plans'| && plans'[..|plans|] == plans && Unrepeated(plans')
    && forall k: nat :: |plans| <= k < |plans'| ==> plans'[k] != StartPlan && plans'[k].rule == r
  }

  ghost predicate NewPlans(plans: seq<Plan>, group: seq<Plan>) {
    Unrepeated(group) && forall p :: p in group ==> p !in plans
  }

  /** A group for a start that has no pieces yet repeats none. */
  lemma {:induction false} GroupNew(c: Census, plans: seq<Plan>, group: seq<Plan>, r: nat, syms: seq<nat>, start: nat)
    requires SoFar(c, plans, r, syms, start) && Unrepeated(group)
    requires forall k: nat :: k < |group| ==> group[k].Piece? && group[k].rule == r && group[k].start == start
    ensures NewPlans(plans, group)
  {
    hide Covers;
  }

  lemma {:induction false} PairUnrepeated(c: Census, syms: seq<nat>, r: nat, start: nat, end: nat, f1: nat, f2: nat, more: bool, both: bool)
    requires FactorsAre(c, syms, start, end, f1, f2) && f2 < end
    ensures Unrepeated(PairPlans(c, syms, r, start, end, f1, f2, more, both))
  {
    var g := PairPlans(c, syms, r, start, end, f1, f2, more, both);
    forall k | 0 <= k < |g|
      ensures g[k].Piece? && |g[k].nulls| == end - start
      ensures g[k].nulls[f1 - start] == (k >= 2) && g[k].nulls[f2 - start] == (k == 1 || k == 3)
    {
    }
  }

  lemma {:induction false} SplitUnrepeated(c: Census, syms: seq<nat>, r: nat, start: nat, end: nat, f1: nat, both: bool)
    requires FactorsAre(c, syms, start, end, f1, end)
    ensures Unrepeated(SplitPlans(c, syms, r, start, end, f1, both))
  {
    var g := SplitPlans(c, syms, r, start, end, f1, both);
    forall k | 0 <= k < |g|
      ensures g[k].Piece? && |g[k].nulls| >= end - start
      ensures g[k].nulls[f1 - start] == (k >= 2) && g[k].more == (k == 0 || k == 2)
    {
    }
  }

  lemma {:induction false} LastUnrepeated(c: Census, syms: seq<nat>, r: nat, start: nat, f1: nat, both: bool)
    requires FactorsAre(c, syms, start, |syms|, f1, |syms|)
    ensures Unrepeated(LastPlans(c, syms, r, start, f1, both))
  {
    var g := LastPlans(c, syms, r, start, f1, both);
    assert !g[0].nulls[f1 - start];
    assert both ==> g[1].nulls[f1 - start];
  }

  lemma {:induction false} GrownMore(plans: seq<Plan>, plans': seq<Plan>, group: seq<Plan>, r: nat)
    requires GrownFor(plans, plans', r) && NewPlans(plans', group)
    requires forall k: nat :: k < |group| ==> group[k] != StartPlan && group[k].rule == r
    ensures GrownFor(plans, plans' + group, r)
  {
    var all := plans' + group;
    assert all[..|plans|] == plans'[..|plans|];
    assert forall k: nat :: |plans'| <= k < |all| ==> all[k] == group[k - |plans'|];
    forall a, b | 0 <= a < b < |all|
      ensures all[a] != all[b]
    {
      if b >= |plans'| {
        assert all[b] in group;
      }
    }
  }

  lemma {:induction false} BelowRest(nsys: seq<Nsy>, r: nat, offset: nat, m: Nsy, next: nat)
    requires Below(nsys, r, offset) && m == Rest(r, next) && offset < next
    ensures m !in nsys && Below(nsys + [m], r, next)
  {
  }

  lemma {:induction false} NotYetSoFar(c: Census, plans: seq<Plan>, r: nat, syms: seq<nat>)
    requires NotYet(plans, r)
    ensures SoFar(c, plans, r, syms, 0) && GrownFor(plans, plans, r)
  {
  }

  lemma {:induction false} PlansOk(x: External, c: Census, nsys: seq<Nsy>, irls: seq<Rule>, plans: seq<Plan>)
    requires RulesAre(x, c, nsys, irls, plans)
    ensures forall k: nat :: k < |plans| ==> PlanOk(x, c, plans[k])
  {
    hide IrlOk, PlanOk;
  }

  class Rewriter {
    const x: External
    const c: Census
    var nsys: seq<Nsy>
    var nsyOf: map<nat, nat>
    var nullOf: map<nat, nat>
    var irls: seq<Rule>
    /** What each internal rule was made for. */
    ghost var plans: seq<Plan>

    /** The tables are right for what has been rewritten so far. */
    ghost predicate Valid()
      reads this
    {
      && Ready(x, c) && Distinct(nsys)
      && SymbolsAre(c, nsys, nsyOf, nullOf, x.xsyCount)
      && RulesAre(x, c, nsys, irls, plans)
    }

    constructor (x: External, c: Census)
      requires Ready(x, c)
      ensures this.x == x && this.c == c && nsys == [] && irls == [] && plans == []
      ensures nsyOf == map[] && nullOf == map[]
    {
      this.x, this.c := x, c;
      nsys, irls, nsyOf, nullOf := [], [], map[], map[];
      plans := [];
    }

    method NewNsy(m: Nsy) returns (n: nat)
      requires Valid() && m !in nsys && !m.Whole? && !m.Null?
      modifies `nsys
      ensures Valid() && nsys == old(nsys) + [m] && n == |old(nsys)| && Means(nsys, n, m)
    {
      hide SymbolsAre, RulesAre, Ready, Distinct;
      MeansGrows(nsys, m);
      RulesGrow(x, c, nsys, m, irls, plans);
      SymbolsGrow(c, nsys, nsyOf, nullOf, x.xsyCount, m);
      DistinctGrows(nsys, m);
      n := |nsys|;
      nsys := nsys + [m];
    }

    /** An internal rule for one piece: its symbols, empty where the piece says so, and the
        virtual symbol for the rest of the rule. */
    method EmitPiece(r: nat, lhs: nat, start: nat, end: nat, null1: int, null2: int, from: nat, rest: seq<nat>)
      requires Valid() && start <= end <= |Rhs(x, r)| && r in c.used
      requires Means(nsys, lhs, LhsMeaning(x, r, start))
      requires |rest| <= 1 && (rest != [] ==> Means(nsys, rest[0], Rest(r, end)))
      requires PlanOk(x, c, Piece(r, start, Nulls(c, Rhs(x, r), start, end, null1, null2, from), rest != []))
      modifies `irls, `plans
      ensures Valid()
      ensures plans == old(plans) + [Piece(r, start, Nulls(c, Rhs(x, r), start, end, null1, null2, from), rest != [])]
    {
      hide SymbolsAre, RulesAre, Distinct, Means, PieceOk, Ready, IrlOk;
      ghost var p := Piece(r, start, Nulls(c, Rhs(x, r), start, end, null1, null2, from), rest != []);
      var syms := Rhs(x, r);
      var rhs := [];
      for ix := 0 to end - start
        invariant |rhs| == ix && irls == old(irls) && plans == old(plans)
        invariant forall k :: 0 <= k < ix ==> Means(nsys, rhs[k], SymbolMeaning(c, syms[start + k], p.nulls[k]))
      {
        var s := syms[start + ix];
        RhsReady(x, c, p, ix);
        SymbolReady(x, c, nsys, nsyOf, nullOf, s);
        if s in c.nulling || start + ix == null1 || start + ix == null2 || start + ix >= from {
          rhs := rhs + [nullOf[s]];
        } else {
          rhs := rhs + [nsyOf[s]];
        }
      }
      rhs := rhs + rest;
      var realCount := end - start;
      var irl := Rule(lhs, rhs, start > 0, |rhs| > realCount, realCount, r);
      PieceRuleIs(x, c, nsys, irl, p);
      RulesAdd(x, c, nsys, irls, plans, irl, p);
      irls := irls + [irl];
      plans := plans + [p];
    }

    /** Two factors, the second among symbols that all may be empty: the piece stops before
        it, and what follows is either left to a virtual symbol or all empty. */
    method EmitSplit(r: nat, lhs: nat, start: nat, end: nat, f1: nat, rest: nat, suffix: nat)
      requires Valid() && start <= end < |Rhs(x, r)| && r in c.used && Means(nsys, lhs, LhsMeaning(x, r, start))
      requires Means(nsys, rest, Rest(r, end))
      requires AllOk(x, c, SplitPlans(c, Rhs(x, r), r, start, end, f1, start < suffix))
      modifies `irls, `plans
      ensures Valid() && plans == old(plans) + SplitPlans(c, Rhs(x, r), r, start, end, f1, start < suffix)
    {
      hide SymbolsAre, RulesAre, Distinct, Means, Ready, PlanOk, Nulls;
      var n := |Rhs(x, r)|;
      ghost var g := SplitPlans(c, Rhs(x, r), r, start, end, f1, start < suffix);
      assert PlanOk(x, c, g[0]) && PlanOk(x, c, g[1]) && PlanOk(x, c, g[2]);
      EmitPiece(r, lhs, start, end, -1, -1, n, [rest]);
      EmitPiece(r, lhs, start, n, -1, -1, end, []);
      EmitPiece(r, lhs, start, end, f1, -1, n, [rest]);
      if start < suffix {
        assert PlanOk(x, c, g[3]);
        EmitPiece(r, lhs, start, n, f1, -1, end, []);
      }
    }

    /** Two factors in one piece: all four choices for them, or three if all would be empty. */
    method EmitPair(r: nat, lhs: nat, start: nat, end: nat, f1: nat, f2: nat, rest: seq<nat>, both: bool)
      requires Valid() && start <= end <= |Rhs(x, r)| && r in c.used && Means(nsys, lhs, LhsMeaning(x, r, start))
      requires |rest| <= 1 && (rest != [] ==> Means(nsys, rest[0], Rest(r, end)))
      requires AllOk(x, c, PairPlans(c, Rhs(x, r), r, start, end, f1, f2, rest != [], both))
      modifies `irls, `plans
      ensures Valid() && plans == old(plans) + PairPlans(c, Rhs(x, r), r, start, end, f1, f2, rest != [], both)
    {
      hide SymbolsAre, RulesAre, Distinct, Means, Ready, PlanOk, Nulls;
      var n := |Rhs(x, r)|;
      ghost var g := PairPlans(c, Rhs(x, r), r, start, end, f1, f2, rest != [], both);
      assert PlanOk(x, c, g[0]) && PlanOk(x, c, g[1]) && PlanOk(x, c, g[2]);
      EmitPiece(r, lhs, start, end, -1, -1, n, rest);
      EmitPiece(r, lhs, start, end, -1, f2, n, rest);
      EmitPiece(r, lhs, start, end, f1, -1, n, rest);
      if both {
        assert PlanOk(x, c, g[3]);
        EmitPiece(r, lhs, start, end, f1, f2, n, rest);
      }
    }

    /** One factor, in the last piece. */
    method EmitLast(r: nat, lhs: nat, start: nat, f1: nat, suffix: nat)
      requires Valid() && start <= |Rhs(x, r)| && r in c.used && Means(nsys, lhs, LhsMeaning(x, r, start))
      requires AllOk(x, c, LastPlans(c, Rhs(x, r), r, start, f1, start < suffix))
      modifies `irls, `plans
      ensures Valid() && plans == old(plans) + LastPlans(c, Rhs(x, r), r, start, f1, start < suffix)
    {
      hide SymbolsAre, RulesAre, Distinct, Means, Ready, PlanOk, Nulls;
      var n := |Rhs(x, r)|;
      ghost var g := LastPlans(c, Rhs(x, r), r, start, f1, start < suffix);
      assert PlanOk(x, c, g[0]);
      EmitPiece(r, lhs, start, n, -1, -1, n, []);
      if start < suffix {
        assert PlanOk(x, c, g[1]);
        EmitPiece(r, lhs, start, n, f1, -1, n, []);
      } else {
      }
    }

    /** The positions of the symbols that may or may not be empty, and where the tail of
        symbols that all may be empty begins. */
    method FindFactors(r: nat) returns (factors: seq<nat>, suffix: nat)
      requires Ready(x, c)
      ensures FactorList(c, Rhs(x, r), |Rhs(x, r)|, factors, suffix)
    {
      var syms := Rhs(x, r);
      factors, suffix := [], 0;
      for ix := 0 to |syms|
        invariant FactorList(c, syms, ix, factors, suffix)
      {
        ghost var before := factors;
        if syms[ix] in c.nulling {
        } else if syms[ix] in c.nullable {
          factors := factors + [ix];
        } else {
          suffix := ix + 1;
        }
        FactorsNext(c, syms, ix, before, factors);
      }
    }

    /** The pieces that stop before the second of the next two factors. */
    method StepSplit(r: nat, factors: seq<nat>, suffix: nat, lhs: nat, ix: nat, start: nat, ghost first: seq<Plan>) returns (rest: nat)
      requires Valid() && r in c.used && r < |x.xrls| && x.xrls[r].Bnf?
      requires FactorList(c, Rhs(x, r), |Rhs(x, r)|, factors, suffix) && SuffixOk(c, Rhs(x, r), suffix)
      requires ix + 2 < |factors| && factors[ix + 1] >= suffix
      requires AtFactor(factors, ix, start) && Means(nsys, lhs, LhsMeaning(x, r, start))
      requires SoFar(c, plans, r, Rhs(x, r), start) && GrownFor(first, plans, r) && Below(nsys, r, start) && start <= |Rhs(x, r)|
      modifies `nsys, `irls, `plans
      ensures Valid() && AtFactor(factors, ix + 1, factors[ix + 1]) && Means(nsys, rest, LhsMeaning(x, r, factors[ix + 1]))
      ensures SoFar(c, plans, r, Rhs(x, r), factors[ix + 1]) && GrownFor(first, plans, r) && Below(nsys, r, factors[ix + 1])
      ensures factors[ix + 1] <= |Rhs(x, r)|
    {
      hide SymbolsAre, RulesAre, Distinct, SoFar, GrownFor, Below, AllOk, FactorList, SuffixOk, FactorsAre, PlanOk, Nulls;
      ghost var before := plans;
      var f1, f2 := factors[ix], factors[ix + 1];
      FactorOrder(c, Rhs(x, r), factors, suffix, ix);
      BelowRest(nsys, r, start, Rest(r, f2), f2);
      rest := NewNsy(Rest(r, f2));
      NextFactors(c, Rhs(x, r), factors, suffix, ix, start, f2, f2);
      SplitReady(x, c, r, start, f2, f1, suffix);
      EmitSplit(r, lhs, start, f2, f1, rest, suffix);
      SplitStep(c, before, r, Rhs(x, r), start, f2, f1, suffix);
      GrownMore(first, before, SplitPlans(c, Rhs(x, r), r, start, f2, f1, start < suffix), r);
    }

    /** The pieces with both of the next two factors. */
    method StepPair(r: nat, factors: seq<nat>, suffix: nat, lhs: nat, ix: nat, start: nat, ghost first: seq<Plan>) returns (rest: nat)
      requires Valid() && r in c.used && r < |x.xrls| && x.xrls[r].Bnf?
      requires FactorList(c, Rhs(x, r), |Rhs(x, r)|, factors, suffix) && SuffixOk(c, Rhs(x, r), suffix)
      requires ix + 2 < |factors| && factors[ix + 1] < suffix
      requires AtFactor(factors, ix, start) && Means(nsys, lhs, LhsMeaning(x, r, start))
      requires SoFar(c, plans, r, Rhs(x, r), start) && GrownFor(first, plans, r) && Below(nsys, r, start) && start <= |Rhs(x, r)|
      modifies `nsys, `irls, `plans
      ensures Valid() && AtFactor(factors, ix + 2, factors[ix + 1] + 1) && Means(nsys, rest, LhsMeaning(x, r, factors[ix + 1] + 1))
      ensures SoFar(c, plans, r, Rhs(x, r), factors[ix + 1] + 1) && GrownFor(first, plans, r) && Below(nsys, r, factors[ix + 1] + 1)
      ensures factors[ix + 1] + 1 <= |Rhs(x, r)|
    {
      hide SymbolsAre, RulesAre, Distinct, SoFar, GrownFor, Below, AllOk, FactorList, SuffixOk, FactorsAre, PlanOk, Nulls;
      ghost var before := plans;
      var f1, f2 := factors[ix], factors[ix + 1];
      var end := f2 + 1;
      FactorOrder(c, Rhs(x, r), factors, suffix, ix);
      BelowRest(nsys, r, start, Rest(r, end), end);
      rest := NewNsy(Rest(r, end));
      NextFactors(c, Rhs(x, r), factors, suffix, ix, start, end, f2);
      BeforeSuffix(c, Rhs(x, r), factors, suffix, ix + 1);
      PairReady(x, c, r, start, end, f1, f2, suffix, true, true);
      EmitPair(r, lhs, start, end, f1, f2, [rest], true);
      PairStep(c, before, r, Rhs(x, r), start, end, f1, f2, suffix);
      GrownMore(first, before, PairPlans(c, Rhs(x, r), r, start, end, f1, f2, true, true), r);
    }

    /** Cut the rule into pieces; a virtual symbol stands for what a piece leaves over. */
    method RewriteChaf(r: nat, factors: seq<nat>, suffix: nat)
      requires Valid() && r in c.used && r < |x.xrls| && x.xrls[r].Bnf?
      requires FactorList(c, Rhs(x, r), |Rhs(x, r)|, factors, suffix) && factors != []
      requires NotYet(plans, r) && Below(nsys, r, 0)
      modifies `nsys, `irls, `plans
      ensures Valid() && RuleDone(x, c, plans, r) && GrownFor(old(plans), plans, r)
      ensures Below(nsys, r, |Rhs(x, r)|)
    {
      hide SymbolsAre, RulesAre, Distinct, SoFar, GrownFor, Below, AllOk, FactorList, SuffixOk, FactorsAre, RuleDone, PlanOk, Nulls, NotYet;
      var syms := Rhs(x, r);
      LhsReady(x, c, nsys, nsyOf, nullOf, r);
      var lhs := nsyOf[x.xrls[r].lhs];
      var ix: nat, start: nat := 0, 0;
      NotYetSoFar(c, plans, r, syms);
      SuffixIs(c, syms, factors, suffix);
      hide Ready;
      while |factors| - ix >= 3
        invariant Valid() && AtFactor(factors, ix, start) && Means(nsys, lhs, LhsMeaning(x, r, start))
        invariant SoFar(c, plans, r, syms, start) && GrownFor(old(plans), plans, r) && Below(nsys, r, start) && start <= |syms|
        decreases |factors| - ix
      {
        var f2 := factors[ix + 1];
        if f2 >= suffix {
          var rest := StepSplit(r, factors, suffix, lhs, ix, start, old(plans));
          lhs, start, ix := rest, f2, ix + 1;
        } else {
          var rest := StepPair(r, factors, suffix, lhs, ix, start, old(plans));
          lhs, start, ix := rest, f2 + 1, ix + 2;
        }
      }
      ghost var before := plans;
      var f1 := factors[ix];
      FactorInside(c, syms, factors, suffix, ix);
      if |factors| - ix == 2 {
        var f2 := factors[ix + 1];
        FactorInside(c, syms, factors, suffix, ix + 1);
        NextFactors(c, syms, factors, suffix, ix, start, |syms|, f2);
        PairReady(x, c, r, start, |syms|, f1, f2, suffix, false, start < suffix);
        EmitPair(r, lhs, start, |syms|, f1, f2, [], start < suffix);
        PairEnd(c, before, r, syms, start, f1, f2, suffix);
        GrownMore(old(plans), before, PairPlans(c, syms, r, start, |syms|, f1, f2, false, start < suffix), r);
      } else {
        NextFactors(c, syms, factors, suffix, ix, start, |syms|, |syms|);
        LastReady(x, c, r, start, f1, suffix);
        EmitLast(r, lhs, start, f1, suffix);
        LastEnd(c, before, r, syms, start, f1, suffix);
        GrownMore(old(plans), before, LastPlans(c, syms, r, start, f1, start < suffix), r);
      }
      PlansOk(x, c, nsys, irls, plans);
      AllDone(x, c, plans, r);
      BelowWeaken(nsys, r, start, |syms|);
    }

    /** A rule without factors is taken over as it is. */
    method RewritePlain(r: nat, suffix: nat)
      requires Valid() && r in c.used && r < |x.xrls| && x.xrls[r].Bnf?
      requires FactorList(c, Rhs(x, r), |Rhs(x, r)|, [], suffix) && NotYet(plans, r)
      modifies `irls, `plans
      ensures Valid() && RuleDone(x, c, plans, r) && GrownFor(old(plans), plans, r)
    {
      hide SymbolsAre, RulesAre, Distinct, SoFar, GrownFor, FactorList, RuleDone, PlanOk, Nulls, NotYet, Ready, IrlOk, NoFactor, Means;
      var syms := Rhs(x, r);
      ghost var p := Piece(r, 0, Nulls(c, syms, 0, |syms|, -1, -1, |syms|), false);
      NoFactors(c, syms, suffix);
      PlainReady(x, c, r);
      LhsReady(x, c, nsys, nsyOf, nullOf, r);
      var rhs := [];
      for ix := 0 to |syms|
        invariant |rhs| == ix && irls == old(irls) && plans == old(plans)
        invariant forall k :: 0 <= k < ix ==> Means(nsys, rhs[k], SymbolMeaning(c, syms[k], p.nulls[k]))
      {
        RhsReady(x, c, p, ix);
        SymbolReady(x, c, nsys, nsyOf, nullOf, syms[ix]);
        rhs := rhs + [nsyOf[syms[ix]]];
      }
      var irl := Rule(nsyOf[x.xrls[r].lhs], rhs, false, false, 0, r);
      PieceRuleIs(x, c, nsys, irl, p);
      Emit(irl, p);
      PlansOk(x, c, nsys, irls, plans);
      PlainDone(x, c, old(plans), r);
    }

    method Emit(irl: Rule, ghost p: Plan)
      requires Valid() && IrlOk(x, c, nsys, irl, p) && PlanOk(x, c, p)
      modifies `irls, `plans
      ensures Valid() && plans == old(plans) + [p] && irls == old(irls) + [irl]
    {
      hide SymbolsAre, RulesAre, Distinct, Ready, IrlOk, PlanOk;
      RulesAdd(x, c, nsys, irls, plans, irl, p);
      irls := irls + [irl];
      plans := plans + [p];
    }

    /** A sequence becomes a left-recursive internal symbol, with the separator between items
        and, unless separation is proper, possibly after the last. */
    method RewriteSequence(r: nat)
      requires Valid() && r in c.used && r < |x.xrls| && x.xrls[r].Sequence?
      requires NotYet(plans, r) && Below(nsys, r, 0)
      modifies `nsys, `irls, `plans
      ensures Valid() && RuleDone(x, c, plans, r) && GrownFor(old(plans), plans, r)
      ensures Below(nsys, r + 1, 0)
    {
      hide SymbolsAre, RulesAre, Distinct, Ready, IrlOk, GrownFor, Below, NotYet, Means, RuleDone, Unrepeated, Expands, Rhs, AllNull, ValidNulls;
      var s := x.xrls[r];
      InnerNew(nsys, r);
      var inner := NewNsy(Inner(r));
      SequenceReady(x, c, nsys, nsyOf, nullOf, r);
      NotYetGrown(plans, r);
      var lhs, item := nsyOf[s.lhs], nsyOf[s.item];
      var separator := if s.separator.Some? then [nsyOf[s.separator.value]] else [];
      ghost var before := plans;
      var top := Rule(lhs, [inner], false, true, 0, r);
      SequenceIs(x, c, nsys, top, SequenceTop(r));
      GrownOne(before, plans, SequenceTop(r), r);
      Emit(top, SequenceTop(r));
      if separator != [] && !s.proper {
        var trail := Rule(lhs, [inner] + separator, false, true, 1, r);
        SequenceIs(x, c, nsys, trail, SequenceTrail(r));
        GrownOne(before, plans, SequenceTrail(r), r);
        Emit(trail, SequenceTrail(r));
      }
      var first := Rule(inner, [item], true, false, 1, r);
      SequenceIs(x, c, nsys, first, SequenceFirst(r));
      GrownOne(before, plans, SequenceFirst(r), r);
      Emit(first, SequenceFirst(r));
      var length := if separator != [] then 3 else 2;
      var more := Rule(inner, [inner] + separator + [item], true, true, length - 1, r);
      SequenceIs(x, c, nsys, more, SequenceMore(r));
      GrownOne(before, plans, SequenceMore(r), r);
      Emit(more, SequenceMore(r));
      SequenceDone(x, c, plans, r);
    }

    /** Internal symbols for the external ones: one, and another for its being empty if it
        may or may not be. */
    method CloneSymbols()
      requires Ready(x, c) && nsys == [] && nsyOf == map[] && nullOf == map[] && irls == [] && plans == []
      modifies `nsys, `nsyOf, `nullOf
      ensures Valid() && OnlySymbols(c, nsys, x.xsyCount)
      ensures forall t: nat :: t in nsyOf <==> t in c.known && t < x.xsyCount
    {
      NoSymbols(c, nsyOf, nullOf);
      NullsAre(x, c);
      hide *;
      for s := 0 to x.xsyCount
        invariant SymbolsAre(c, nsys, nsyOf, nullOf, s) && OnlySymbols(c, nsys, s) && Distinct(nsys)
        invariant irls == [] && plans == []
        invariant forall t: nat :: t in nsyOf <==> t in c.known && t < s
      {
        if s in c.known {
          CloneOne(c, nsys, nsyOf, nullOf, s);
          ghost var nsyOf0, nullOf0 := nsyOf, nullOf;
          var n := |nsys|;
          if s in c.nulling {
            nsys := nsys + [Null(s)];
            nsyOf := nsyOf[s := n];
            nullOf := nullOf[s := n];
          } else if s in c.nullable {
            nsys := nsys + [Whole(s)] + [Null(s)];
            nsyOf := nsyOf[s := n];
            nullOf := nullOf[s := n + 1];
          } else {
            nsys := nsys + [Whole(s)];
            nsyOf := nsyOf[s := n];
          }
          CloneDone(c, nsys, nsyOf0, nullOf0, s, nsyOf, nullOf);
        } else {
          CloneNone(c, nsys, nsyOf, nullOf, s);
        }
      }
      AllCloned(this);
    }

    /** The whole rewrite: symbols, then every used rule in its turn, then the start rule. */
    method Rewrite()
      requires Ready(x, c) && nsys == [] && nsyOf == map[] && nullOf == map[] && irls == [] && plans == []
      modifies this
      ensures Valid() && Rewritten(x, c, nsys, plans)
      ensures forall t: nat :: t in nsyOf <==> t in c.known && t < x.xsyCount
    {
      CloneSymbols();
      ghost var cloned := nsyOf;
      hide SymbolsAre, RulesAre, Distinct, Ready, RuleDone, NotYet, Below, GrownFor, OnlySymbols, FactorList, Means, IrlOk;
      SymbolsBelow(c, nsys, x.xsyCount);
      for r := 0 to |x.xrls|
        invariant Valid() && NotYet(plans, r) && Below(nsys, r, 0) && DoneBefore(x, c, plans, r) && nsyOf == cloned
      {
        ghost var before := plans;
        if r in c.used {
          if x.xrls[r].Sequence? {
            RewriteSequence(r);
          } else {
            var factors, suffix := FindFactors(r);
            if |factors| > 0 {
              RewriteChaf(r, factors, suffix);
              BelowNext(nsys, r, |Rhs(x, r)|);
            } else {
              RewritePlain(r, suffix);
              BelowNext(nsys, r, 0);
            }
          }
          DoneNext(x, c, before, plans, r);
        } else {
          BelowNext(nsys, r, 0);
          DoneSkip(x, c, plans, r);
        }
      }
      StartNew(nsys, |x.xrls|);
      ghost var before := plans;
      ghost var symbols := nsys;
      var start := NewNsy(StartSymbol);
      StartReady(x, c, nsys, nsyOf, nullOf);
      var irl := Rule(start, [nsyOf[x.start]], true, false, 1, 0);
      StartIs(x, c, nsys, irl);
      Emit(irl, StartPlan);
      DoneStart(x, c, before, symbols);
    }
  }

  // ---- Symbols ----

  /** Nothing but symbols for external symbols below `count`. */
  ghost predicate OnlySymbols(c: Census, nsys: seq<Nsy>, count: nat) {
    forall n: nat :: n < |nsys| ==> (nsys[n].Whole? || nsys[n].Null?) && nsys[n].xsy < count
  }

  lemma {:induction false} CloneOne(c: Census, nsys: seq<Nsy>, nsyOf: map<nat, nat>, nullOf: map<nat, nat>, s: nat)
    requires SymbolsAre(c, nsys, nsyOf, nullOf, s) && OnlySymbols(c, nsys, s) && Distinct(nsys)
    requires s in c.known && (s in c.nulling ==> s in c.nullable)
    ensures var m := if s in c.nulling then Null(s) else Whole(s);
            var nsys' := nsys + [m];
            && SymbolsAre(c, nsys', nsyOf, nullOf, s) && Distinct(nsys') && OnlySymbols(c, nsys', s + 1)
            && (s in c.nullable ==> SymbolsAre(c, nsys' + [Null(s)], nsyOf, nullOf, s)) && OnlySymbols(c, nsys' + [Null(s)], s + 1)
            && (s !in c.nulling ==> Distinct(nsys' + [Null(s)]))
  {
    var m := if s in c.nulling then Null(s) else Whole(s);
    SymbolsGrow(c, nsys, nsyOf, nullOf, s, m);
    if s in c.nullable {
      SymbolsGrow(c, nsys + [m], nsyOf, nullOf, s, Null(s));
    }
    hide SymbolsAre;
  }

  lemma {:induction false} NoSymbols(c: Census, nsyOf: map<nat, nat>, nullOf: map<nat, nat>)
    ensures SymbolsAre(c, [], nsyOf, nullOf, 0) && OnlySymbols(c, [], 0) && Distinct([])
  {
  }

  lemma {:induction false} NullsAre(x: External, c: Census)
    requires Ready(x, c)
    ensures forall s :: s in c.nulling ==> s in c.nullable
  {
  }

  /** The symbol's own entries are right, and no others have changed. */
  lemma {:induction false} CloneDone(c: Census, nsys: seq<Nsy>, nsyOf: map<nat, nat>, nullOf: map<nat, nat>, s: nat, nsyOf': map<nat, nat>, nullOf': map<nat, nat>)
    requires SymbolsAre(c, nsys, nsyOf, nullOf, s) && s in nsyOf' && nsyOf' == nsyOf[s := nsyOf'[s]]
    requires nsyOf'[s] < |nsys| && nsys[nsyOf'[s]] == (if s in c.nulling then Null(s) else Whole(s))
    requires if s in c.nullable then s in nullOf' && nullOf' == nullOf[s := nullOf'[s]] && nullOf'[s] < |nsys| && nsys[nullOf'[s]] == Null(s)
             else nullOf' == nullOf
    ensures SymbolsAre(c, nsys, nsyOf', nullOf', s + 1)
  {
  }

  lemma {:induction false} AllCloned(w: Rewriter)
    requires Ready(w.x, w.c) && Distinct(w.nsys) && SymbolsAre(w.c, w.nsys, w.nsyOf, w.nullOf, w.x.xsyCount) && w.irls == [] && w.plans == []
    ensures w.Valid()
  {
  }

  lemma {:induction false} CloneNone(c: Census, nsys: seq<Nsy>, nsyOf: map<nat, nat>, nullOf: map<nat, nat>, s: nat)
    requires SymbolsAre(c, nsys, nsyOf, nullOf, s) && OnlySymbols(c, nsys, s) && s !in c.known
    ensures SymbolsAre(c, nsys, nsyOf, nullOf, s + 1) && OnlySymbols(c, nsys, s + 1)
  {
  }

  lemma {:induction false} SymbolsBelow(c: Census, nsys: seq<Nsy>, count: nat)
    requires OnlySymbols(c, nsys, count)
    ensures Below(nsys, 0, 0)
  {
  }

  lemma {:induction false} BelowNext(nsys: seq<Nsy>, r: nat, offset: nat)
    requires Below(nsys, r, offset)
    ensures Below(nsys, r + 1, 0)
  {
  }

  // ---- Rules ----

  lemma {:induction false} DoneNext(x: External, c: Census, plans: seq<Plan>, plans': seq<Plan>, r: nat)
    requires DoneBefore(x, c, plans, r) && NotYet(plans, r) && GrownFor(plans, plans', r) && RuleDone(x, c, plans', r)
    ensures DoneBefore(x, c, plans', r + 1) && NotYet(plans', r + 1)
  {
    hide RuleDone;
    var group := plans'[|plans|..];
    assert plans' == plans + group;
    forall r' | r' in c.used && r' < r
      ensures RuleDone(x, c, plans', r')
    {
      RuleDoneGrows(x, c, plans, group, r', r);
    }
    forall k: nat | k < |plans'|
      ensures plans'[k] != StartPlan && plans'[k].rule < r + 1
    {
      assert k < |plans| ==> plans'[k] == plans[k];
    }
  }

  lemma {:induction false} DoneSkip(x: External, c: Census, plans: seq<Plan>, r: nat)
    requires DoneBefore(x, c, plans, r) && NotYet(plans, r) && r !in c.used
    ensures DoneBefore(x, c, plans, r + 1) && NotYet(plans, r + 1)
  {
    hide RuleDone;
  }

  lemma {:induction false} DoneStart(x: External, c: Census, plans: seq<Plan>, nsys: seq<Nsy>)
    requires DoneBefore(x, c, plans, |x.xrls|) && NotYet(plans, |x.xrls|) && Below(nsys, |x.xrls|, 0)
    ensures Rewritten(x, c, nsys + [StartSymbol], plans + [StartPlan])
  {
    hide RuleDone;
    forall r' | r' in c.used && r' < |x.xrls|
      ensures RuleDone(x, c, plans + [StartPlan], r')
    {
      RuleDoneGrows(x, c, plans, [StartPlan], r', |x.xrls|);
    }
    assert (plans + [StartPlan])[..|plans|] == plans;
    assert (nsys + [StartSymbol])[..|nsys|] == nsys;
  }

  lemma {:induction false} StartNew(nsys: seq<Nsy>, r: nat)
    requires Below(nsys, r, 0)
    ensures StartSymbol !in nsys
  {
  }

  lemma {:induction false} StartReady(x: External, c: Census, nsys: seq<Nsy>, nsyOf: map<nat, nat>, nullOf: map<nat, nat>)
    requires Ready(x, c) && SymbolsAre(c, nsys, nsyOf, nullOf, x.xsyCount)
    ensures x.start in nsyOf && Means(nsys, nsyOf[x.start], Whole(x.start))
  {
  }

  lemma {:induction false} StartIs(x: External, c: Census, nsys: seq<Nsy>, irl: Rule)
    requires StartRule(x, nsys, irl)
    ensures IrlOk(x, c, nsys, irl, StartPlan) && PlanOk(x, c, StartPlan)
  {
  }

  lemma {:induction false} PlainReady(x: External, c: Census, r: nat)
    requires Ready(x, c) && r in c.used && r < |x.xrls| && x.xrls[r].Bnf? && NoFactor(c, Rhs(x, r), 0, |Rhs(x, r)|)
    ensures PlanOk(x, c, Piece(r, 0, Nulls(c, Rhs(x, r), 0, |Rhs(x, r)|, -1, -1, |Rhs(x, r)|), false))
    ensures forall k :: 0 <= k < |Rhs(x, r)| && NullAt(c, Rhs(x, r), k, -1, -1, |Rhs(x, r)|) ==> Rhs(x, r)[k] in c.nulling
  {
    assert RuleReady(x, c, r);
    var syms := Rhs(x, r);
    var ns := Nulls(c, syms, 0, |syms|, -1, -1, |syms|);
    assert syms[0..0 + |ns|] == syms;
    var q :| 0 <= q < |syms| && syms[q] !in c.nulling;
    assert !ns[q];
  }

  lemma {:induction false} PlainDone(x: External, c: Census, plans: seq<Plan>, r: nat)
    requires Ready(x, c) && r < |x.xrls| && x.xrls[r].Bnf? && NoFactor(c, Rhs(x, r), 0, |Rhs(x, r)|) && NotYet(plans, r)
    requires var p := Piece(r, 0, Nulls(c, Rhs(x, r), 0, |Rhs(x, r)|, -1, -1, |Rhs(x, r)|), false);
             forall k: nat :: k < |plans + [p]| ==> PlanOk(x, c, (plans + [p])[k])
    ensures var plans' := plans + [Piece(r, 0, Nulls(c, Rhs(x, r), 0, |Rhs(x, r)|, -1, -1, |Rhs(x, r)|), false)];
            RuleDone(x, c, plans', r) && GrownFor(plans, plans', r)
  {
    var p := Piece(r, 0, Nulls(c, Rhs(x, r), 0, |Rhs(x, r)|, -1, -1, |Rhs(x, r)|), false);
    hide SoFar, NoFactor, NotYet, PlanOk, Nulls, GrownFor;
    NotYetSoFar(c, plans, r, Rhs(x, r));
    PlainEnd(c, plans, r, Rhs(x, r));
    GroupNew(c, plans, [p], r, Rhs(x, r), 0);
    GrownMore(plans, plans, [p], r);
    AllDone(x, c, plans + [p], r);
  }

  lemma {:induction false} NotYetGrown(plans: seq<Plan>, r: nat)
    requires NotYet(plans, r)
    ensures GrownFor(plans, plans, r)
    ensures forall p :: p in plans ==> p != StartPlan && p.rule < r
  {
  }

  lemma {:induction false} InnerNew(nsys: seq<Nsy>, r: nat)
    requires Below(nsys, r, 0)
    ensures Inner(r) !in nsys && Below(nsys + [Inner(r)], r + 1, 0)
  {
  }

  lemma {:induction false} GrownOne(plans: seq<Plan>, plans': seq<Plan>, p: Plan, r: nat)
    requires GrownFor(plans, plans', r) && p != StartPlan && p.rule == r && p !in plans'
    ensures GrownFor(plans, plans' + [p], r)
  {
    GrownMore(plans, plans', [p], r);
  }

  lemma {:induction false} SequenceReady(x: External, c: Census, nsys: seq<Nsy>, nsyOf: map<nat, nat>, nullOf: map<nat, nat>, r: nat)
    requires Ready(x, c) && SymbolsAre(c, nsys, nsyOf, nullOf, x.xsyCount) && r in c.used && r < |x.xrls| && x.xrls[r].Sequence?
    ensures var s := x.xrls[r];
            && s.lhs in nsyOf && Means(nsys, nsyOf[s.lhs], Whole(s.lhs))
            && s.item in nsyOf && Means(nsys, nsyOf[s.item], Whole(s.item))
            && (s.separator.Some? ==> s.separator.value in nsyOf && Means(nsys, nsyOf[s.separator.value], Whole(s.separator.value)))
  {
    assert RuleReady(x, c, r);
  }

  lemma {:induction false} SequenceIs(x: External, c: Census, nsys: seq<Nsy>, irl: Rule, p: Plan)
    requires p != StartPlan && !p.Piece? && SequenceRule(x, nsys, irl, p) && irl.source == p.rule
    ensures IrlOk(x, c, nsys, irl, p)
  {
  }

  lemma {:induction false} SequenceDone(x: External, c: Census, plans: seq<Plan>, r: nat)
    requires r < |x.xrls| && x.xrls[r].Sequence?
    requires SequenceTop(r) in plans && SequenceFirst(r) in plans && SequenceMore(r) in plans
    requires !x.xrls[r].proper && x.xrls[r].separator.Some? ==> SequenceTrail(r) in plans
    ensures RuleDone(x, c, plans, r)
  {
  }

  lemma {:induction false} BelowWeaken(nsys: seq<Nsy>, r: nat, a: nat, b: nat)
    requires Below(nsys, r, a) && a <= b
    ensures Below(nsys, r, b)
  {
  }

  lemma {:induction false} FactorInside(c: Census, syms: seq<nat>, factors: seq<nat>, suffix: nat, ix: nat)
    requires FactorList(c, syms, |syms|, factors, suffix) && ix < |factors|
    ensures factors[ix] < |syms| && (ix > 0 ==> factors[ix - 1] < factors[ix])
  {
  }

  lemma {:induction false} FactorOrder(c: Census, syms: seq<nat>, factors: seq<nat>, suffix: nat, ix: nat)
    requires FactorList(c, syms, |syms|, factors, suffix) && ix + 2 < |factors|
    ensures factors[ix] < factors[ix + 1] < factors[ix + 2] < |syms|
  {
  }

  /** A factor before the last symbol that may not be empty has that symbol after it. */
  lemma {:induction false} BeforeSuffix(c: Census, syms: seq<nat>, factors: seq<nat>, suffix: nat, ix: nat)
    requires FactorList(c, syms, |syms|, factors, suffix) && ix < |factors| && factors[ix] < suffix
    ensures factors[ix] + 1 < suffix
  {
  }

  lemma {:induction false} FactorsNext(c: Census, syms: seq<nat>, ix: nat, before: seq<nat>, after: seq<nat>)
    requires ix < |syms|
    requires after == if IsFactor(c, syms, ix) then before + [ix] else before
    ensures forall q: nat :: q in before || (q == ix && IsFactor(c, syms, q)) <==> q in after
  {
    if IsFactor(c, syms, ix) {
      assert after[|before|] == ix;
      assert forall k :: 0 <= k < |before| ==> after[k] == before[k];
    }
  }

  lemma {:induction false} LhsReady(x: External, c: Census, nsys: seq<Nsy>, nsyOf: map<nat, nat>, nullOf: map<nat, nat>, r: nat)
    requires Ready(x, c) && r in c.used && SymbolsAre(c, nsys, nsyOf, nullOf, x.xsyCount)
    ensures r < |x.xrls| && x.xrls[r].lhs in nsyOf && Means(nsys, nsyOf[x.xrls[r].lhs], Whole(x.xrls[r].lhs))
  {
    assert RuleReady(x, c, r);
  }

  /** A symbol of a piece that may be used is known, and may be empty where the piece says so. */
  lemma {:induction false} RhsReady(x: External, c: Census, p: Plan, k: nat)
    requires Ready(x, c) && PlanOk(x, c, p) && p.Piece? && k < |p.nulls|
    ensures p.start + k < |Rhs(x, p.rule)| && Rhs(x, p.rule)[p.start + k] in c.known
    ensures p.nulls[k] ==> Rhs(x, p.rule)[p.start + k] in c.nullable
  {
    var syms := Rhs(x, p.rule);
    assert syms[p.start..p.start + |p.nulls|][k] == syms[p.start + k];
    assert RuleReady(x, c, p.rule);
  }

  lemma {:induction false} PieceRuleIs(x: External, c: Census, nsys: seq<Nsy>, irl: Rule, p: Plan)
    requires p.Piece? && PlanOk(x, c, p) && p.start + |p.nulls| <= |Rhs(x, p.rule)|
    requires Means(nsys, irl.lhs, LhsMeaning(x, p.rule, p.start))
    requires |irl.rhs| == |p.nulls| + (if p.more then 1 else 0)
    requires forall k :: 0 <= k < |p.nulls| ==> Means(nsys, irl.rhs[k], SymbolMeaning(c, Rhs(x, p.rule)[p.start + k], p.nulls[k]))
    requires p.more ==> Means(nsys, irl.rhs[|p.nulls|], Rest(p.rule, p.start + |p.nulls|))
    requires irl.virtualLhs == (p.start > 0) && irl.virtualRhs == p.more && irl.source == p.rule
    requires p.start > 0 || p.more ==> irl.realCount == |p.nulls|
    ensures IrlOk(x, c, nsys, irl, p)
  {
    hide Means;
  }
}
