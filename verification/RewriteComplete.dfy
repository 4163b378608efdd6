/** Nothing is lost by the rewrite: what an external symbol derives, other than nothing, its
    internal symbol derives. */
module RewriteComplete {
  import opened Options
  import opened Grammars
  import opened Derivations
  import opened InternalRules
  import opened Externals
  import opened Pieces
  import opened Encodings
  import opened Compilations
  import opened RewriteMeaning

  /** Internal symbols one after another. */
  ghost predicate DerivesAll(g: Grammar, itoks: set<Token>, ns: seq<nat>, i: nat, j: nat)
    decreases |ns|
  {
    if ns == [] then i == j
    else exists m: nat :: DerivesAll(g, itoks, Init(ns), i, m) && Derives(g, itoks, End(ns), m, j)
  }

  lemma {:induction false} DerivesSnoc(g: Grammar, itoks: set<Token>, ns: seq<nat>, n: nat, i: nat, m: nat, j: nat)
    requires DerivesAll(g, itoks, ns, i, m) && Derives(g, itoks, n, m, j)
    ensures DerivesAll(g, itoks, ns + [n], i, j)
  {
    hide Derives;
    assert Init(ns + [n]) == ns && End(ns + [n]) == n;
  }

  lemma {:induction false} AllSpan(g: Grammar, itoks: set<Token>, r: nat, q: nat, i: nat, j: nat)
    requires IsItem(g, r, q) && DerivesAll(g, itoks, P(g, r)[..q], i, j)
    ensures Spans(g, itoks, r, q, i, j)
    decreases q
  {
    hide P, Derives, TreeFor;
    if q == 0 {
      assert ForestFor(g, itoks, Nil, r, 0, i, j);
    } else {
      var ns := P(g, r)[..q];
      assert Init(ns) == P(g, r)[..q - 1] && End(ns) == P(g, r)[q - 1];
      var m: nat :| DerivesAll(g, itoks, Init(ns), i, m) && Derives(g, itoks, End(ns), m, j);
      AllSpan(g, itoks, r, q - 1, i, m);
      SpanOn(g, itoks, r, q - 1, i, m, j);
    }
  }

  lemma {:induction false} SpanOn(g: Grammar, itoks: set<Token>, r: nat, q: nat, i: nat, m: nat, j: nat)
    requires Spans(g, itoks, r, q, i, m) && q < |P(g, r)| && IsItem(g, r, q + 1) && Derives(g, itoks, P(g, r)[q], m, j)
    ensures Spans(g, itoks, r, q + 1, i, j)
  {
    var f :| ForestFor(g, itoks, f, r, q, i, m);
    var t :| TreeFor(g, itoks, t, P(g, r)[q], m, j);
    hide P;
    assert ForestFor(g, itoks, Snoc(f, m, t), r, q + 1, i, j);
  }

  lemma {:induction false} RuleFrom(g: Grammar, itoks: set<Token>, r: nat, i: nat, j: nat)
    requires r < |g.irls| && DerivesAll(g, itoks, P(g, r), i, j)
    ensures Derives(g, itoks, g.irls[r].lhs, i, j)
  {
    assert P(g, r)[..|P(g, r)|] == P(g, r);
    AllSpan(g, itoks, r, |P(g, r)|, i, j);
    var f :| ForestFor(g, itoks, f, r, |P(g, r)|, i, j);
    assert TreeFor(g, itoks, Node(r, f), g.irls[r].lhs, i, j);
  }

  /** The internal symbol for `m` derives the tokens from `i` to `j`. */
  ghost predicate SymbolDerives(k: Compiled, itoks: set<Token>, m: Nsy, i: nat, j: nat) {
    forall n: nat :: Means(k.nsys, n, m) ==> Derives(k.g, itoks, n, i, j)
  }

  /** There is only one internal symbol for `m`. */
  lemma {:induction false} OnlySymbol(k: Compiled, itoks: set<Token>, n: nat, m: Nsy, i: nat, j: nat)
    requires Distinct(k.nsys) && Means(k.nsys, n, m) && Derives(k.g, itoks, n, i, j)
    ensures SymbolDerives(k, itoks, m, i, j)
  {
    hide Derives;
    forall n': nat | Means(k.nsys, n', m)
      ensures n' == n
    {
    }
  }

  /** A rule for `m` whose proper symbols derive the tokens. */
  lemma {:induction false} RuleGives(k: Compiled, itoks: set<Token>, irl: nat, m: Nsy, i: nat, j: nat)
    requires Rewrote(k) && irl < |k.irls| && Means(k.nsys, k.irls[irl].lhs, m)
    requires DerivesAll(k.g, itoks, P(k.g, irl), i, j)
    ensures SymbolDerives(k, itoks, m, i, j)
  {
    RuleShape(k, irl);
    assert Distinct(k.nsys);
    hide Rewrote, P, Derives, DerivesAll, Distinct, Means;
    RuleFrom(k.g, itoks, irl, i, j);
    OnlySymbol(k, itoks, k.irls[irl].lhs, m, i, j);
  }

  // ---- Pieces ----

  /** Each symbol from `start` on is empty, or its internal symbol derives its part. */
  ghost predicate PartsDerive(k: Compiled, itoks: set<Token>, syms: seq<nat>, points: seq<nat>, start: nat, nulls: seq<bool>) {
    && |points| == |syms| + 1 && start + |nulls| == |syms|
    && forall q :: 0 <= q < |nulls| ==>
         if nulls[q] then points[start + q] == points[start + q + 1]
         else SymbolDerives(k, itoks, Whole(syms[start + q]), points[start + q], points[start + q + 1])
  }

  lemma {:induction false} PartsLength(k: Compiled, itoks: set<Token>, syms: seq<nat>, points: seq<nat>, start: nat, nulls: seq<bool>)
    requires PartsDerive(k, itoks, syms, points, start, nulls)
    ensures |points| == |syms| + 1 && start + |nulls| == |syms|
  {
    hide SymbolDerives;
  }

  /** A symbol in its place: nulling, or deriving its part. */
  ghost predicate Placed(g: Grammar, itoks: set<Token>, n: nat, i: nat, j: nat) {
    if n in g.nulling then i == j else Derives(g, itoks, n, i, j)
  }

  lemma {:induction false} PlacedDerive(g: Grammar, itoks: set<Token>, ns: seq<nat>, points: seq<nat>)
    requires |points| == |ns| + 1 && forall q :: 0 <= q < |ns| ==> Placed(g, itoks, ns[q], points[q], points[q + 1])
    ensures DerivesAll(g, itoks, Proper(g.nulling, ns), points[0], points[|ns|])
    decreases |ns|
  {
    hide Derives, DerivesAll;
    if ns == [] {
      NoneDerive(g, itoks, points[0]);
    } else {
      var n := |ns| - 1;
      var before := ns[..n];
      PlacedDerive(g, itoks, before, points[..n + 1]);
      assert ns[..n + 1] == ns;
      ProperSnoc(g.nulling, ns, n);
      assert Placed(g, itoks, ns[n], points[n], points[n + 1]);
      if ns[n] in g.nulling {
        assert Proper(g.nulling, before) + [] == Proper(g.nulling, before);
      } else {
        DerivesSnoc(g, itoks, Proper(g.nulling, before), ns[n], points[0], points[n], points[n + 1]);
      }
    }
  }

  lemma {:induction false} NoneDerive(g: Grammar, itoks: set<Token>, i: nat)
    ensures DerivesAll(g, itoks, [], i, i)
  {
  }

  /** The symbols of a piece derive their part. */
  lemma {:induction false} PieceDerives(k: Compiled, itoks: set<Token>, irl: nat, points: seq<nat>, nulls: seq<bool>)
    requires Rewrote(k) && irl < |k.irls| && k.plans[irl].Piece? && k.plans[irl].nulls <= nulls
    requires PartsDerive(k, itoks, Rhs(k.x, k.plans[irl].rule), points, k.plans[irl].start, nulls)
    ensures var p := k.plans[irl];
            && p.start + |p.nulls| < |points| && |p.nulls| <= |k.irls[irl].rhs|
            && DerivesAll(k.g, itoks, Proper(k.g.nulling, k.irls[irl].rhs[..|p.nulls|]), points[p.start], points[p.start + |p.nulls|])
  {
    hide Rewrote, PieceOk, Derives, DerivesAll, Placed;
    PieceFacts(k, irl);
    var p, m := k.plans[irl], |k.plans[irl].nulls|;
    var ns, part := k.irls[irl].rhs[..m], points[p.start..p.start + m + 1];
    forall q | 0 <= q < m
      ensures Placed(k.g, itoks, ns[q], part[q], part[q + 1])
    {
      PiecePlaced(k, itoks, irl, points, nulls, q);
    }
    hide PartsDerive, PieceRule;
    PlacedDerive(k.g, itoks, ns, part);
  }

  lemma {:induction false} PiecePlaced(k: Compiled, itoks: set<Token>, irl: nat, points: seq<nat>, nulls: seq<bool>, q: nat)
    requires Rewrote(k) && irl < |k.irls| && k.plans[irl].Piece? && q < |k.plans[irl].nulls| && k.plans[irl].nulls <= nulls
    requires PartsDerive(k, itoks, Rhs(k.x, k.plans[irl].rule), points, k.plans[irl].start, nulls)
    ensures q < |k.irls[irl].rhs| && k.plans[irl].start + q + 1 < |points|
    ensures Placed(k.g, itoks, k.irls[irl].rhs[q], points[k.plans[irl].start + q], points[k.plans[irl].start + q + 1])
  {
    hide Rewrote, SymbolDerives, Derives, Means, PieceOk;
    PieceFacts(k, irl);
    PieceSymbol(k, irl, q);
    var p := k.plans[irl];
    assert p.nulls[q] == nulls[q];
    if !nulls[q] {
      SymbolUse(k, itoks, k.irls[irl].rhs[q], Whole(Rhs(k.x, p.rule)[p.start + q]), points[p.start + q], points[p.start + q + 1]);
    }
  }

  lemma {:induction false} SymbolUse(k: Compiled, itoks: set<Token>, n: nat, m: Nsy, i: nat, j: nat)
    requires SymbolDerives(k, itoks, m, i, j) && Means(k.nsys, n, m)
    ensures Derives(k.g, itoks, n, i, j)
  {
  }

  lemma {:induction false} PieceSymbol(k: Compiled, irl: nat, q: nat)
    requires Rewrote(k) && irl < |k.irls| && k.plans[irl].Piece? && q < |k.plans[irl].nulls|
    ensures q < |k.irls[irl].rhs| && k.plans[irl].start + q < |Rhs(k.x, k.plans[irl].rule)|
    ensures k.plans[irl].nulls[q] <==> k.irls[irl].rhs[q] in k.g.nulling
    ensures !k.plans[irl].nulls[q] ==> Means(k.nsys, k.irls[irl].rhs[q], Whole(Rhs(k.x, k.plans[irl].rule)[k.plans[irl].start + q]))
  {
    hide CensusOk, Ready, Rewritten, SymbolsAre, Distinct;
    PieceFacts(k, irl);
    var p := k.plans[irl];
    assert Rhs(k.x, p.rule)[p.start..p.start + |p.nulls|][q] == Rhs(k.x, p.rule)[p.start + q];
  }

  /** A chain of pieces derives the symbols from `start` on, unless all are empty. */
  lemma {:induction false} Chain(k: Compiled, itoks: set<Token>, r: nat, start: nat, points: seq<nat>, nulls: seq<bool>)
    requires Rewrote(k) && r < |k.x.xrls| && k.x.xrls[r].Bnf? && r in k.c.used && start <= |Rhs(k.x, r)|
    requires Covers(k.c, k.plans, r, Rhs(k.x, r), start)
    requires ValidNulls(k.c, Rhs(k.x, r)[start..], nulls) && !AllNull(nulls)
    requires PartsDerive(k, itoks, Rhs(k.x, r), points, start, nulls)
    ensures SymbolDerives(k, itoks, LhsMeaning(k.x, r, start), points[start], points[|Rhs(k.x, r)|])
    decreases |Rhs(k.x, r)| - start
  {
    hide *;
    PartsLength(k, itoks, Rhs(k.x, r), points, start, nulls);
    var irl: nat := CoveredBy(k, r, start, nulls);
    var m := |k.plans[irl].nulls|;
    if k.plans[irl].more {
      RestGoesOn(k, irl, nulls);
      RestParts(k, itoks, Rhs(k.x, r), points, start, nulls, m);
      Chain(k, itoks, r, start + m, points, nulls[m..]);
      RestMeaning(k.x, r, start + m);
    }
    PieceWhole(k, itoks, irl, points, nulls);
    PieceLhs(k, irl);
    RuleGives(k, itoks, irl, LhsMeaning(k.x, r, start), points[start], points[|Rhs(k.x, r)|]);
  }

  lemma {:induction false} RestMeaning(x: External, r: nat, offset: nat)
    requires offset > 0
    ensures LhsMeaning(x, r, offset) == Rest(r, offset)
  {
  }

  lemma {:induction false} PieceLhs(k: Compiled, irl: nat)
    requires Rewrote(k) && irl < |k.irls| && k.plans[irl].Piece?
    ensures Means(k.nsys, k.irls[irl].lhs, LhsMeaning(k.x, k.plans[irl].rule, k.plans[irl].start))
  {
    hide Rewrote, Means, PieceOk;
    PieceFacts(k, irl);
  }

  lemma {:induction false} PieceInside(k: Compiled, irl: nat)
    requires Rewrote(k) && irl < |k.irls| && k.plans[irl].Piece?
    ensures var p := k.plans[irl];
            && p.start + |p.nulls| <= |Rhs(k.x, p.rule)| && (p.more ==> |k.irls[irl].rhs| == |p.nulls| + 1)
            && (p.more ==> Means(k.nsys, k.irls[irl].rhs[|p.nulls|], Rest(p.rule, p.start + |p.nulls|)))
  {
    hide Rewrote, Means, ValidNulls, AllNull;
    PieceFacts(k, irl);
  }

  lemma {:induction false} PieceWhole(k: Compiled, itoks: set<Token>, irl: nat, points: seq<nat>, nulls: seq<bool>)
    requires Rewrote(k) && irl < |k.irls| && k.plans[irl].Piece? && k.plans[irl].nulls <= nulls
    requires PartsDerive(k, itoks, Rhs(k.x, k.plans[irl].rule), points, k.plans[irl].start, nulls)
    requires var p, m := k.plans[irl], |k.plans[irl].nulls|;
             p.more ==> SymbolDerives(k, itoks, Rest(p.rule, p.start + m), points[p.start + m], points[|Rhs(k.x, p.rule)|])
    ensures DerivesAll(k.g, itoks, P(k.g, irl), points[k.plans[irl].start], points[|Rhs(k.x, k.plans[irl].rule)|])
  {
    hide *;
    RuleShape(k, irl);
    PieceInside(k, irl);
    PartsLength(k, itoks, Rhs(k.x, k.plans[irl].rule), points, k.plans[irl].start, nulls);
    var p, rhs, m := k.plans[irl], k.irls[irl].rhs, |k.plans[irl].nulls|;
    PieceDerives(k, itoks, irl, points, nulls);
    PieceEnd(k, irl);
    if p.more {
      SymbolUse(k, itoks, rhs[m], Rest(p.rule, p.start + m), points[p.start + m], points[|Rhs(k.x, p.rule)|]);
      DerivesSnoc(k.g, itoks, Proper(k.g.nulling, rhs[..m]), rhs[m], points[p.start], points[p.start + m], points[|Rhs(k.x, p.rule)|]);
    }
  }

  /** After the symbols of a piece: a virtual symbol, or the end of the rule. */
  lemma {:induction false} PieceEnd(k: Compiled, irl: nat)
    requires Rewrote(k) && irl < |k.irls| && k.plans[irl].Piece?
    ensures var p, rhs := k.plans[irl], k.irls[irl].rhs;
            var m := |p.nulls|;
            && m <= |rhs| && P(k.g, irl) == Proper(k.g.nulling, rhs[..m]) + (if p.more then rhs[m..] else [])
            && (p.more ==> |rhs| == m + 1 && rhs[m..] == [rhs[m]])
            && (!p.more ==> p.start + m == |Rhs(k.x, p.rule)| && P(k.g, irl) == Proper(k.g.nulling, rhs[..m]))
  {
    hide Rewrote, ValidNulls, AllNull;
    PieceFacts(k, irl);
    RestIsProper(k, irl);
    var p, rhs := k.plans[irl], k.irls[irl].rhs;
    var m := |p.nulls|;
    assert P(k.g, irl) == Proper(k.g.nulling, rhs);
    if p.more {
      assert rhs[..m + 1] == rhs && rhs[m..] == [rhs[m]];
      ProperSnoc(k.g.nulling, rhs, m);
    } else {
      assert rhs[..m] == rhs;
    }
  }

  lemma {:induction false} CoveredBy(k: Compiled, r: nat, start: nat, nulls: seq<bool>) returns (irl: nat)
    requires Rewrote(k) && Covers(k.c, k.plans, r, Rhs(k.x, r), start)
    requires start <= |Rhs(k.x, r)| && ValidNulls(k.c, Rhs(k.x, r)[start..], nulls) && !AllNull(nulls)
    ensures irl < |k.irls| && irl < |k.plans| && Matches(k.plans[irl], r, start, nulls)
    ensures k.plans[irl].Piece? && k.plans[irl].rule == r && k.plans[irl].start == start && k.plans[irl].nulls <= nulls
  {
    SamePlans(k);
    hide Rewrote, ValidNulls, AllNull, Matches;
    assert ExactlyOne(k.plans, r, start, nulls);
    irl :| irl < |k.plans| && Matches(k.plans[irl], r, start, nulls);
    MatchParts(k.plans[irl], r, start, nulls);
  }

  lemma {:induction false} SamePlans(k: Compiled)
    requires Rewrote(k)
    ensures |k.plans| == |k.irls|
  {
    hide Ready, CensusOk, Rewritten, SymbolsAre, Distinct;
  }

  lemma {:induction false} MatchParts(p: Plan, r: nat, start: nat, nulls: seq<bool>)
    requires Matches(p, r, start, nulls)
    ensures p.Piece? && p.rule == r && p.start == start && p.nulls <= nulls
  {
  }

  lemma {:induction false} MoreCovered(k: Compiled, irl: nat)
    requires Rewrote(k) && irl < |k.irls| && k.plans[irl].Piece? && k.plans[irl].more && k.plans[irl].rule in k.c.used
    requires k.plans[irl].rule < |k.x.xrls| && k.x.xrls[k.plans[irl].rule].Bnf?
    ensures irl < |k.plans| && Covers(k.c, k.plans, k.plans[irl].rule, Rhs(k.x, k.plans[irl].rule), EndOf(k.plans[irl]))
  {
    hide Ready, SymbolsAre, Distinct, IrlOk, PlanOk, Covers;
    assert RuleDone(k.x, k.c, k.plans, k.plans[irl].rule);
    assert IsMore(k.plans[irl], k.plans[irl].rule);
  }

  lemma {:induction false} RestGoesOn(k: Compiled, irl: nat, nulls: seq<bool>)
    requires Rewrote(k) && irl < |k.irls| && k.plans[irl].Piece? && k.plans[irl].more
    requires Matches(k.plans[irl], k.plans[irl].rule, k.plans[irl].start, nulls)
    requires k.plans[irl].start <= |Rhs(k.x, k.plans[irl].rule)| && ValidNulls(k.c, Rhs(k.x, k.plans[irl].rule)[k.plans[irl].start..], nulls)
    ensures var p, syms, m := k.plans[irl], Rhs(k.x, k.plans[irl].rule), |k.plans[irl].nulls|;
            && 0 < m <= |nulls| && p.start + m <= |syms|
            && ValidNulls(k.c, syms[p.start + m..], nulls[m..]) && !AllNull(nulls[m..])
            && Covers(k.c, k.plans, p.rule, syms, p.start + m)
  {
    hide Rewrote, Covers, PieceRule;
    PieceFacts(k, irl);
    MoreCovered(k, irl);
    var p, syms, m := k.plans[irl], Rhs(k.x, k.plans[irl].rule), |k.plans[irl].nulls|;
    forall q | 0 <= q < |nulls[m..]|
      ensures nulls[m..][q] == nulls[m + q] && syms[p.start + m..][q] == syms[p.start..][m + q]
    {
    }
  }

  lemma {:induction false} RestParts(k: Compiled, itoks: set<Token>, syms: seq<nat>, points: seq<nat>, start: nat, nulls: seq<bool>, m: nat)
    requires PartsDerive(k, itoks, syms, points, start, nulls) && m <= |nulls|
    ensures PartsDerive(k, itoks, syms, points, start + m, nulls[m..])
  {
    hide SymbolDerives;
    var rest := nulls[m..];
    forall q | 0 <= q < |rest|
      ensures if rest[q] then points[start + m + q] == points[start + m + q + 1]
              else SymbolDerives(k, itoks, Whole(syms[start + m + q]), points[start + m + q], points[start + m + q + 1])
    {
      assert rest[q] == nulls[m + q];
      assert start + (m + q) == start + m + q;
    }
  }

  // ---- Sequences ----

  /** Each symbol derives its part. */
  ghost predicate EachDerives(k: Compiled, itoks: set<Token>, syms: seq<nat>, points: seq<nat>) {
    && |points| == |syms| + 1
    && forall q :: 0 <= q < |syms| ==> SymbolDerives(k, itoks, Whole(syms[q]), points[q], points[q + 1])
  }

  /** Internal symbols that mean `syms`, after ones that reach the first point. */
  lemma {:induction false} ThenAll(k: Compiled, itoks: set<Token>, ns: seq<nat>, ms: seq<nat>, syms: seq<nat>, points: seq<nat>, i: nat)
    requires EachDerives(k, itoks, syms, points) && |ms| == |syms| && DerivesAll(k.g, itoks, ns, i, points[0])
    requires forall q :: 0 <= q < |ms| ==> Means(k.nsys, ms[q], Whole(syms[q]))
    ensures DerivesAll(k.g, itoks, ns + ms, i, points[|ms|])
    decreases |ms|
  {
    hide Derives, DerivesAll, SymbolDerives, Means;
    if ms == [] {
      assert ns + ms == ns;
    } else {
      var q := |ms| - 1;
      ThenAll(k, itoks, ns, ms[..q], syms[..q], points[..q + 1], i);
      SymbolUse(k, itoks, ms[q], Whole(syms[q]), points[q], points[q + 1]);
      DerivesSnoc(k.g, itoks, ns + ms[..q], ms[q], i, points[q], points[q + 1]);
      assert ns + ms == ns + ms[..q] + [ms[q]];
    }
  }

  /** The rule made for a plan. */
  lemma {:induction false} PlanRule(k: Compiled, p: Plan) returns (irl: nat)
    requires Rewrote(k) && p in k.plans
    ensures irl < |k.irls| && irl < |k.plans| && k.plans[irl] == p
  {
    SamePlans(k);
    hide Rewrote;
    irl :| irl < |k.plans| && k.plans[irl] == p;
  }

  lemma {:induction false} SequencePlans(k: Compiled, r: nat)
    requires Rewrote(k) && r in k.c.used && r < |k.x.xrls| && k.x.xrls[r].Sequence?
    ensures SequenceTop(r) in k.plans && SequenceFirst(r) in k.plans && SequenceMore(r) in k.plans
    ensures !k.x.xrls[r].proper && k.x.xrls[r].separator.Some? ==> SequenceTrail(r) in k.plans
  {
    hide Ready, CensusOk, RulesAre, SymbolsAre, Distinct;
    assert RuleDone(k.x, k.c, k.plans, r);
  }

  lemma {:induction false} OneDerives(k: Compiled, itoks: set<Token>, n: nat, m: Nsy, i: nat, j: nat)
    requires SymbolDerives(k, itoks, m, i, j) && Means(k.nsys, n, m)
    ensures DerivesAll(k.g, itoks, [n], i, j)
  {
    SymbolUse(k, itoks, n, m, i, j);
    hide SymbolDerives, Means, Derives;
    assert [] + [n] == [n];
    DerivesSnoc(k.g, itoks, [], n, i, i, j);
  }

  /** A sequence rule that starts with the inner symbol. */
  lemma {:induction false} InnerThenAll(k: Compiled, itoks: set<Token>, irl: nat, r: nat, syms: seq<nat>, points: seq<nat>, i: nat)
    requires Rewrote(k) && irl < |k.irls| && irl < |k.plans| && !k.plans[irl].Piece? && k.plans[irl] != StartPlan && !k.plans[irl].SequenceFirst?
    requires k.plans[irl].rule == r && r < |k.x.xrls| && k.x.xrls[r].Sequence?
    requires k.plans[irl].SequenceTrail? ==> k.x.xrls[r].separator.Some?
    requires var s := k.x.xrls[r];
             syms == if k.plans[irl].SequenceTop? then [] else if k.plans[irl].SequenceTrail? then [s.separator.value]
                     else Separators(s.separator) + [s.item]
    requires EachDerives(k, itoks, syms, points) && SymbolDerives(k, itoks, Inner(r), i, points[0])
    ensures DerivesAll(k.g, itoks, P(k.g, irl), i, points[|syms|])
  {
    hide Rewrote, SymbolDerives, DerivesAll, P, Means;
    SequenceFacts(k, irl);
    SequenceP(k, irl);
    var rhs := k.irls[irl].rhs;
    hide SequenceRule, Separators;
    assert rhs == [rhs[0]] + rhs[1..];
    OneDerives(k, itoks, rhs[0], Inner(r), i, points[0]);
    ThenAll(k, itoks, [rhs[0]], rhs[1..], syms, points, i);
  }

  /** Items with separators derive as the inner symbol. */
  lemma {:induction false} ItemsDerive(k: Compiled, itoks: set<Token>, r: nat, n: nat, points: seq<nat>)
    requires Rewrote(k) && r in k.c.used && r < |k.x.xrls| && k.x.xrls[r].Sequence?
    requires EachDerives(k, itoks, Items(k.x.xrls[r].item, k.x.xrls[r].separator, n), points)
    ensures points != [] && SymbolDerives(k, itoks, Inner(r), points[0], points[|points| - 1])
    decreases n
  {
    hide Rewrote, SymbolDerives, DerivesAll, P, Means;
    SequencePlans(k, r);
    var s := k.x.xrls[r];
    if n == 0 {
      var irl := PlanRule(k, SequenceFirst(r));
      SequenceFacts(k, irl);
      SequenceP(k, irl);
      assert k.irls[irl].rhs == [k.irls[irl].rhs[0]];
      assert Items(s.item, s.separator, 0) == [s.item] && SymbolDerives(k, itoks, Whole([s.item][0]), points[0], points[1]);
      OneDerives(k, itoks, k.irls[irl].rhs[0], Whole(s.item), points[0], points[1]);
      RuleGives(k, itoks, irl, Inner(r), points[0], points[1]);
    } else {
      var before := Items(s.item, s.separator, n - 1);
      var syms := Separators(s.separator) + [s.item];
      Assoc(before, Separators(s.separator), [s.item]);
      var m := |before|;
      SplitEach(k, itoks, before, syms, points);
      hide Items, EachDerives;
      ItemsDerive(k, itoks, r, n - 1, points[..m + 1]);
      var irl := PlanRule(k, SequenceMore(r));
      SequenceFacts(k, irl);
      hide SequenceRule;
      InnerThenAll(k, itoks, irl, r, syms, points[m..], points[0]);
      MoreLhs(k, irl);
      RuleGives(k, itoks, irl, Inner(r), points[0], points[|points| - 1]);
    }
  }

  lemma {:induction false} Assoc(s: seq<nat>, t: seq<nat>, u: seq<nat>)
    ensures s + (t + u) == s + t + u
  {
  }

  lemma {:induction false} MoreLhs(k: Compiled, irl: nat)
    requires Rewrote(k) && irl < |k.irls| && irl < |k.plans| && !k.plans[irl].Piece? && k.plans[irl] != StartPlan
    ensures k.plans[irl].SequenceMore? ==> Means(k.nsys, k.irls[irl].lhs, Inner(k.plans[irl].rule))
    ensures k.plans[irl].SequenceTop? || k.plans[irl].SequenceTrail? ==>
              k.plans[irl].rule < |k.x.xrls| && Means(k.nsys, k.irls[irl].lhs, Whole(k.x.xrls[k.plans[irl].rule].lhs))
  {
    hide Rewrote, Means;
    SequenceFacts(k, irl);
  }

  lemma {:induction false} SplitEach(k: Compiled, itoks: set<Token>, a: seq<nat>, b: seq<nat>, points: seq<nat>)
    requires EachDerives(k, itoks, a + b, points)
    ensures |points| == |a| + |b| + 1
    ensures EachDerives(k, itoks, a, points[..|a| + 1]) && EachDerives(k, itoks, b, points[|a|..])
  {
    hide SymbolDerives;
    var ab := a + b;
    assert forall q :: 0 <= q < |a| ==> ab[q] == a[q];
    forall q | 0 <= q < |b|
      ensures SymbolDerives(k, itoks, Whole(b[q]), points[|a|..][q], points[|a|..][q + 1])
    {
      assert ab[|a| + q] == b[q];
      assert SymbolDerives(k, itoks, Whole(ab[|a| + q]), points[|a| + q], points[|a| + q + 1]);
    }
  }

  /** A whole sequence, with a separator at the end or without. */
  lemma {:induction false} SequenceDerives(k: Compiled, itoks: set<Token>, r: nat, syms: seq<nat>, points: seq<nat>)
    requires Rewrote(k) && r in k.c.used && r < |k.x.xrls| && k.x.xrls[r].Sequence?
    requires Expands(k.x.xrls[r], syms) && syms != [] && EachDerives(k, itoks, syms, points)
    ensures SymbolDerives(k, itoks, Whole(k.x.xrls[r].lhs), points[0], points[|syms|])
  {
    hide Rewrote, SymbolDerives, DerivesAll, P, Means, Items;
    SequencePlans(k, r);
    var s := k.x.xrls[r];
    if n: nat :| syms == Items(s.item, s.separator, n) {
      ItemsDerive(k, itoks, r, n, points);
      var irl := PlanRule(k, SequenceTop(r));
      InnerThenAll(k, itoks, irl, r, [], [points[|syms|]], points[0]);
      MoreLhs(k, irl);
      RuleGives(k, itoks, irl, Whole(s.lhs), points[0], points[|syms|]);
    } else {
      var n: nat :| syms == Items(s.item, s.separator, n) + [s.separator.value];
      var before := Items(s.item, s.separator, n);
      SplitEach(k, itoks, before, [s.separator.value], points);
      hide EachDerives;
      ItemsDerive(k, itoks, r, n, points[..|before| + 1]);
      var irl := PlanRule(k, SequenceTrail(r));
      InnerThenAll(k, itoks, irl, r, [s.separator.value], points[|before|..], points[0]);
      MoreLhs(k, irl);
      RuleGives(k, itoks, irl, Whole(s.lhs), points[0], points[|syms|]);
    }
  }

  // ---- External derivations ----

  /** Of two points, the empty symbols have equal ones. */
  ghost function NullsOf(points: seq<nat>): seq<bool> {
    if points == [] then [] else seq(|points| - 1, q requires 0 <= q < |points| - 1 => points[q] == points[q + 1])
  }

  /** Symbols of a rule that derives something: known, and empty only if they can be. */
  lemma {:induction false} NullsValid(k: Compiled, toks: set<Token>, syms: seq<nat>, points: seq<nat>)
    requires CensusOk(k.x, k.c) && TokensOk(toks) && SpansAt(k.x, toks, syms, points)
    ensures ValidNulls(k.c, syms, NullsOf(points))
  {
    hide XDerives;
    forall q | 0 <= q < |syms|
      ensures syms[q] in k.c.nulling ==> points[q] == points[q + 1]
      ensures points[q] == points[q + 1] ==> syms[q] in k.c.nullable
    {
      assert XDerives(k.x, toks, syms[q], points[q], points[q + 1]);
      if points[q] == points[q + 1] {
        EmptyIsNothing(k.x, toks, syms[q], points[q]);
      }
    }
  }

  lemma {:induction false} SomeNotNull(points: seq<nat>)
    requires |points| > 0 && points[0] != points[|points| - 1]
    ensures !AllNull(NullsOf(points))
  {
    var q := |points| - 2;
    var ns := NullsOf(points);
    if points[q] == points[q + 1] {
      SomeNotNull(points[..q + 1]);
      var ms := NullsOf(points[..q + 1]);
      assert forall a :: 0 <= a < |ms| ==> ms[a] == ns[a];
    } else {
      assert !ns[q];
    }
  }

  /** The rule at the root of a derivation of something is used, and its symbols are known. */
  lemma {:induction false} RootUsed(k: Compiled, toks: set<Token>, t: XTree, s: nat, i: nat, j: nat)
    requires Rewrote(k) && CensusOk(k.x, k.c) && TokensOk(toks) && XTreeFor(k.x, toks, t, s, i, j) && t.XNode? && i < j && s in k.c.known
    requires !OwnToken(k.x, toks, s, i, j)
    ensures t.rule in k.c.used && t.rule < |k.x.xrls| && k.x.xrls[t.rule].lhs == s && Expands(k.x.xrls[t.rule], t.syms)
    ensures SpansAt(k.x, toks, t.syms, t.points) && Between(t.points, |t.syms|, i, j)
    ensures forall q :: 0 <= q < |t.syms| ==> t.syms[q] in k.c.known
    ensures k.x.xrls[t.rule].Sequence? ==> forall q :: 0 <= q < |t.syms| ==> t.syms[q] !in k.c.nullable
    ensures CensusOk(k.x, k.c)
  {
    hide Rewritten, RulesAre, SymbolsAre, Distinct, XDerives;
    NodeSpans(k.x, toks, t, s, i, j);
    assert XSpans(k.x, toks, t.syms, i, j);
    assert DerivesSome(k.x, toks, t.rule, t.syms, i, j);
    hide CensusOk;
    assert RuleReady(k.x, k.c, t.rule);
    SymbolsKnown(k.x, k.c, t.rule, t.syms);
  }

  lemma {:induction false} SymbolsKnown(x: External, c: Census, r: nat, syms: seq<nat>)
    requires RuleReady(x, c, r) && Expands(x.xrls[r], syms)
    ensures forall q :: 0 <= q < |syms| ==> syms[q] in c.known
    ensures x.xrls[r].Sequence? ==> forall q :: 0 <= q < |syms| ==> syms[q] !in c.nullable
  {
    var s := x.xrls[r];
    if s.Sequence? && syms != [] {
      if n: nat :| syms == Items(s.item, s.separator, n) {
        ItemsFrom(s.item, s.separator, n);
      } else {
        var n: nat :| syms == Items(s.item, s.separator, n) + [s.separator.value];
        ItemsFrom(s.item, s.separator, n);
      }
    }
  }

  /** What an external symbol derives, if it is not nothing, its internal symbol derives. */
  lemma {:induction false} TreeComplete(k: Compiled, toks: set<Token>, itoks: set<Token>, t: XTree, s: nat, i: nat, j: nat)
    requires Rewrote(k) && CensusOk(k.x, k.c) && TokensOk(toks) && TokensAre(k, toks, itoks)
    requires XTreeFor(k.x, toks, t, s, i, j) && i < j && s in k.c.known
    ensures SymbolDerives(k, itoks, Whole(s), i, j)
    decreases t
  {
    hide Rewrote, CensusOk, SymbolDerives, CensusOk, Expands;
    if t.XLeaf? || OwnToken(k.x, toks, s, i, j) {
      LeafComplete(k, toks, itoks, s, i, j);
    } else {
      RootUsed(k, toks, t, s, i, j);
      var points, syms := t.points, t.syms;
      forall q | 0 <= q < |syms|
        ensures points[q] <= points[q + 1]
        ensures points[q] < points[q + 1] ==> SymbolDerives(k, itoks, Whole(syms[q]), points[q], points[q + 1])
      {
        XForward(k.x, toks, syms[q], points[q], points[q + 1]);
        if points[q] < points[q + 1] {
          TreeComplete(k, toks, itoks, t.kids[q], syms[q], points[q], points[q + 1]);
        }
      }
      hide XTreeFor, TokensAre;
      RootComplete(k, toks, itoks, t.rule, syms, points);
    }
  }

  lemma {:induction false} LeafComplete(k: Compiled, toks: set<Token>, itoks: set<Token>, s: nat, i: nat, j: nat)
    requires TokensAre(k, toks, itoks) && s in k.x.terminals && Token(s, i, j) in toks
    ensures SymbolDerives(k, itoks, Whole(s), i, j)
  {
    hide Derives;
    forall n: nat | Means(k.nsys, n, Whole(s))
      ensures Derives(k.g, itoks, n, i, j)
    {
      assert Token(n, i, j) in itoks;
      TokenDerives(k.g, itoks, n, i, j);
    }
  }

  lemma {:induction false} RootComplete(k: Compiled, toks: set<Token>, itoks: set<Token>, r: nat, syms: seq<nat>, points: seq<nat>)
    requires Rewrote(k) && CensusOk(k.x, k.c) && TokensOk(toks) && SpansAt(k.x, toks, syms, points)
    requires r in k.c.used && r < |k.x.xrls| && Expands(k.x.xrls[r], syms) && points[0] < points[|syms|]
    requires forall q :: 0 <= q < |syms| ==>
               points[q] <= points[q + 1] && (points[q] < points[q + 1] ==> SymbolDerives(k, itoks, Whole(syms[q]), points[q], points[q + 1]))
    requires k.x.xrls[r].Sequence? ==> forall q :: 0 <= q < |syms| ==> syms[q] !in k.c.nullable
    ensures SymbolDerives(k, itoks, Whole(k.x.xrls[r].lhs), points[0], points[|syms|])
  {
    hide Rewrote, CensusOk, SymbolDerives, XDerives, Expands, SpansAt;
    if k.x.xrls[r].Bnf? {
      BnfComplete(k, toks, itoks, r, syms, points);
    } else {
      SpansLength(k.x, toks, syms, points);
      assert EachDerives(k, itoks, syms, points) by {
        NullsValid(k, toks, syms, points);
        NoneNull(k.c, syms, points);
      }
      hide EachDerives;
      SequenceDerives(k, itoks, r, syms, points);
    }
  }

  lemma {:induction false} SpansLength(x: External, toks: set<Token>, syms: seq<nat>, points: seq<nat>)
    requires SpansAt(x, toks, syms, points)
    ensures |points| == |syms| + 1
  {
  }

  lemma {:induction false} NoneNull(c: Census, syms: seq<nat>, points: seq<nat>)
    requires |points| == |syms| + 1 && ValidNulls(c, syms, NullsOf(points))
    requires forall q :: 0 <= q < |syms| ==> syms[q] !in c.nullable
    ensures forall q :: 0 <= q < |syms| ==> points[q] != points[q + 1]
  {
    var nulls := NullsOf(points);
    forall q | 0 <= q < |syms|
      ensures points[q] != points[q + 1]
    {
      assert !nulls[q];
    }
  }

  lemma {:induction false} BnfComplete(k: Compiled, toks: set<Token>, itoks: set<Token>, r: nat, syms: seq<nat>, points: seq<nat>)
    requires Rewrote(k) && CensusOk(k.x, k.c) && TokensOk(toks) && SpansAt(k.x, toks, syms, points)
    requires r in k.c.used && r < |k.x.xrls| && k.x.xrls[r].Bnf? && Expands(k.x.xrls[r], syms) && points[0] < points[|syms|]
    requires forall q :: 0 <= q < |syms| ==>
               points[q] <= points[q + 1] && (points[q] < points[q + 1] ==> SymbolDerives(k, itoks, Whole(syms[q]), points[q], points[q + 1]))
    ensures SymbolDerives(k, itoks, Whole(k.x.xrls[r].lhs), points[0], points[|syms|])
  {
    hide Rewrote, CensusOk, SymbolDerives, XDerives, PartsDerive, ValidNulls, AllNull, SpansAt, Covers;
    SpansLength(k.x, toks, syms, points);
    NullsValid(k, toks, syms, points);
    SomeNotNull(points);
    PartsFrom(k, itoks, syms, points);
    assert syms[0..] == syms;
    FirstCovered(k, r);
    Chain(k, itoks, r, 0, points, NullsOf(points));
  }

  lemma {:induction false} PartsFrom(k: Compiled, itoks: set<Token>, syms: seq<nat>, points: seq<nat>)
    requires |points| == |syms| + 1
    requires forall q :: 0 <= q < |syms| ==>
               points[q] <= points[q + 1] && (points[q] < points[q + 1] ==> SymbolDerives(k, itoks, Whole(syms[q]), points[q], points[q + 1]))
    ensures PartsDerive(k, itoks, syms, points, 0, NullsOf(points))
  {
    hide SymbolDerives;
    var nulls := NullsOf(points);
    forall q | 0 <= q < |nulls|
      ensures if nulls[q] then points[0 + q] == points[0 + q + 1] else SymbolDerives(k, itoks, Whole(syms[0 + q]), points[0 + q], points[0 + q + 1])
    {
      assert points[q] <= points[q + 1];
    }
  }

  lemma {:induction false} FirstCovered(k: Compiled, r: nat)
    requires Rewrote(k) && r in k.c.used && r < |k.x.xrls| && k.x.xrls[r].Bnf?
    ensures Covers(k.c, k.plans, r, Rhs(k.x, r), 0)
  {
    hide Ready, CensusOk, RulesAre, SymbolsAre, Distinct;
    assert RuleDone(k.x, k.c, k.plans, r);
  }

  // ---- The theorem ----

  /** For every known symbol that is not always empty: its internal symbol derives exactly
      what it derives itself, except nothing. */
  lemma {:induction false} SameLanguage(k: Compiled, toks: set<Token>, itoks: set<Token>, s: nat, i: nat, j: nat)
    requires Rewrote(k) && CensusOk(k.x, k.c) && TokensOk(toks) && TokensAre(k, toks, itoks) && s in k.c.known && s !in k.c.nulling
    ensures s in k.nsyOf && (Derives(k.g, itoks, k.nsyOf[s], i, j) <==> XDerives(k.x, toks, s, i, j) && i < j)
  {
    NoRuleEmpty(k);
    hide Rewrote, CensusOk;
    assert TokensOk(itoks);
    hide TokensAre, TokensOk, RulesOk;
    var n := k.nsyOf[s];
    if Derives(k.g, itoks, n, i, j) {
      var t :| TreeFor(k.g, itoks, t, n, i, j);
      TreeSound(k, toks, itoks, t, n, i, j);
      TreeForward(k.g, itoks, t, n, i, j);
    }
    if XDerives(k.x, toks, s, i, j) && i < j {
      var t :| XTreeFor(k.x, toks, t, s, i, j);
      TreeComplete(k, toks, itoks, t, s, i, j);
      SymbolUse(k, itoks, n, Whole(s), i, j);
    }
  }

  /** No internal rule can be empty: every one has a proper symbol. */
  lemma {:induction false} NoRuleEmpty(k: Compiled)
    requires Rewrote(k)
    ensures RulesOk(k.g)
  {
    SamePlans(k);
    SameRules(k);
    StartIsLast(k);
    hide Rewrote;
    forall r: nat | r < |k.g.irls|
      ensures P(k.g, r) != []
    {
      RuleNotEmpty(k, r);
    }
  }

  lemma {:induction false} StartIsLast(k: Compiled)
    requires Rewrote(k)
    ensures |k.irls| > 0 && k.g.startIrl == |k.irls| - 1
    ensures |k.plans| == |k.irls| && forall r: nat :: r < |k.plans| ==> (k.plans[r] == StartPlan <==> r == |k.plans| - 1)
  {
    hide Ready, CensusOk, SymbolsAre, Distinct, DoneBefore;
    var before := k.plans[..|k.plans| - 1];
    assert forall r: nat :: r < |before| ==> before[r] == k.plans[r];
  }

  lemma {:induction false} RuleNotEmpty(k: Compiled, r: nat)
    requires Rewrote(k) && r < |k.irls| && r < |k.plans|
    ensures P(k.g, r) != []
  {
    hide Rewrote;
    if k.plans[r].Piece? {
      PieceNotEmpty(k, r);
    } else if k.plans[r] == StartPlan {
      StartFacts(k, r);
    } else {
      SequenceFacts(k, r);
      SequenceP(k, r);
    }
  }

  lemma {:induction false} PieceNotEmpty(k: Compiled, r: nat)
    requires Rewrote(k) && r < |k.irls| && r < |k.plans| && k.plans[r].Piece?
    ensures P(k.g, r) != []
  {
    hide Rewrote;
    PieceFacts(k, r);
    PieceEnd(k, r);
    var p, rhs := k.plans[r], k.irls[r].rhs;
    if !p.more {
      var q :| 0 <= q < |p.nulls| && !p.nulls[q];
      PieceSymbol(k, r, q);
      hide PieceOk, PieceRule;
      ProperHas(k.g.nulling, rhs[..|p.nulls|], q);
    }
  }

  lemma {:induction false} ProperHas(nulling: set<nat>, rhs: seq<nat>, q: nat)
    requires q < |rhs| && rhs[q] !in nulling
    ensures Proper(nulling, rhs) != []
    decreases |rhs|
  {
    if q < |rhs| - 1 {
      ProperHas(nulling, rhs[..|rhs| - 1], q);
    }
  }

}
