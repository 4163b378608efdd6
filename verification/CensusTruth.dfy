/** The census is true of derivations, and so fit for the rewrite, exactly when every sequence
    that it drops for want of a separator would have added nothing. */
module CensusTruth {
  import opened Options
  import opened Derivations
  import opened Externals
  import opened Pieces
  import opened Encodings
  import opened Compilations
  import opened RhsClosures
  import opened Closures
  import opened CensusMeaning

  /** A census with its parts. */
  datatype Findings = Findings(e: Relation, nullable: set<nat>, productive: set<nat>, accessible: set<nat>, nulling: set<nat>, used: set<nat>)

  ghost predicate Taken(x: External, f: Findings) {
    CensusTaken(x, f.e, f.nullable, f.productive, f.accessible, f.nulling, f.used)
  }

  function AsCensus(f: Findings): Census {
    CensusOf(f.nullable, f.productive, f.accessible, f.nulling, f.used)
  }

  /** A sequence whose item can be derived, but whose separator cannot: the census drops it. */
  ghost predicate Dropped(x: External, f: Findings, r: nat) {
    && r < |x.xrls| && x.xrls[r].Sequence? && x.xrls[r].lhs in f.accessible && x.xrls[r].item in f.productive
    && x.xrls[r].separator.Some? && x.xrls[r].separator.value !in f.productive
  }

  /** No sequence is dropped. */
  ghost predicate SeparatorsOk(x: External, f: Findings) {
    forall r: nat :: !Dropped(x, f, r)
  }

  /** All that the item can be is one token of the sequence's own left-hand side. */
  ghost predicate OnlyOwnTokens(x: External, r: nat) {
    r < |x.xrls| && x.xrls[r].Sequence? && forall toks: set<Token>, i: nat, j: nat ::
      TokensOk(toks) && XDerives(x, toks, x.xrls[r].item, i, j) && i < j ==> OwnToken(x, toks, x.xrls[r].lhs, i, j)
  }

  /** Every sequence that is dropped would add nothing. */
  ghost predicate SeparatorsHarmless(x: External, f: Findings) {
    forall r: nat :: Dropped(x, f, r) ==> OnlyOwnTokens(x, r)
  }

  // ---- The census is fit for the rewrite ----

  lemma {:induction false} KnownBound(x: External, f: Findings, s: nat)
    requires GrammarGiven(x) && Taken(x, f) && s in f.accessible
    ensures s < x.xsyCount
  {
    hide NullableIs, ProductiveIs, NullingIs, UsedIs;
    if s != x.start {
      var path :| IsPath(f.e, path, x.start, s);
      assert (path[|path| - 2], path[|path| - 2 + 1]) in f.e;
      assert Edge(x, path[|path| - 2], s);
    }
  }

  lemma {:induction false} EdgeAccessible(x: External, f: Findings, r: nat, s: nat)
    requires Taken(x, f) && r < |x.xrls| && x.xrls[r].lhs in f.accessible && s in Mentions(x.xrls[r])
    ensures s in f.accessible
  {
    hide NullableIs, ProductiveIs, NullingIs, UsedIs, Mentions;
    var lhs := x.xrls[r].lhs;
    assert Edge(x, lhs, s);
    assert IsPath(f.e, [lhs, s], lhs, s);
    if lhs != x.start {
      var p :| IsPath(f.e, p, x.start, lhs);
      PathJoin(f.e, p, [lhs, s], x.start, lhs, s);
    }
  }

  /** What is productive is nullable or leads to a terminal. */
  lemma {:induction false} ProductiveLeads(x: External, f: Findings, s: nat)
    requires GrammarGiven(x) && Taken(x, f) && s in f.productive
    ensures s in f.nullable || LeadsTo(x, f.e, s)
  {
    var z := f.nullable + set s: nat | s < x.xsyCount && LeadsTo(x, f.e, s);
    assert Closed(x, f.nullable);
    hide NullableIs, AccessibleIs, NullingIs, UsedIs, EdgesAre, Mentions;
    forall r | 0 <= r < |x.xrls| && Covered(x.xrls[r], z)
      ensures x.xrls[r].lhs in z
    {
      CoveredLeads(x, f, r, z);
    }
    assert Closed(x, z);
    assert f.nullable + x.terminals <= z;
  }

  lemma {:induction false} CoveredLeads(x: External, f: Findings, r: nat, z: set<nat>)
    requires GrammarGiven(x) && Taken(x, f) && r < |x.xrls| && Covered(x.xrls[r], z)
    requires forall s :: s in z ==> s in f.nullable || LeadsTo(x, f.e, s)
    ensures x.xrls[r].lhs in f.nullable || (LeadsTo(x, f.e, x.xrls[r].lhs) && x.xrls[r].lhs < x.xsyCount)
  {
    assert Closed(x, f.nullable) && EdgesAre(x, f.e);
    hide NullableIs, AccessibleIs, NullingIs, UsedIs, EdgesAre, ProductiveIs, LeadsTo;
    var rhs := RhsOf(x.xrls[r]);
    if s :| s in rhs && s !in f.nullable {
      hide Mentions;
      EdgeLeads(x, f.e, r, s);
    } else {
      assert Covered(x.xrls[r], f.nullable);
    }
  }

  lemma {:induction false} MarkedMeans(x: External, f: Findings, s: nat)
    requires Taken(x, f)
    ensures s in f.nulling ==> !LeadsTo(x, f.e, s)
    ensures IsLhs(x, s) && !LeadsTo(x, f.e, s) ==> s in f.nulling
  {
    hide NullableIs, AccessibleIs, ProductiveIs, UsedIs, EdgesAre, Reaches, IsLhs;
  }

  lemma {:induction false} NullsFit(x: External, f: Findings)
    requires GrammarGiven(x) && Taken(x, f)
    ensures NullsOk(AsCensus(f))
  {
    hide Taken, GrammarGiven, LeadsTo;
    forall s | s in f.nulling && s in f.productive
      ensures s in f.nullable
    {
      ProductiveLeads(x, f, s);
      MarkedMeans(x, f, s);
    }
  }

  /** A used rule is ready for the rewrite. */
  lemma {:induction false} UsedReady(x: External, f: Findings, r: nat)
    requires GrammarGiven(x) && Taken(x, f) && r in f.used
    ensures RuleReady(x, AsCensus(f), r)
  {
    UsedFacts(x, f, r);
    hide Taken, GrammarGiven, RuleUsed, Reaches;
    var rule := x.xrls[r];
    forall s | s in Mentions(rule)
      ensures s in f.accessible
    {
      EdgeAccessible(x, f, r, s);
    }
    if rule.Bnf? {
      forall k | 0 <= k < |rule.rhs|
        ensures rule.rhs[k] in f.productive && rule.rhs[k] in f.accessible
      {
        assert rule.rhs[k] in RhsOf(rule);
      }
    } else {
      SequenceMentions(rule);
    }
  }

  lemma {:induction false} UsedFacts(x: External, f: Findings, r: nat)
    requires GrammarGiven(x) && Taken(x, f) && r in f.used
    ensures r < |x.xrls|
    ensures var rule := x.xrls[r];
            && rule.lhs in f.accessible && rule.lhs in f.productive && rule.lhs !in f.nulling
            && (forall s :: s in RhsOf(rule) ==> s in f.productive)
            && (rule.Bnf? ==> exists k :: 0 <= k < |rule.rhs| && rule.rhs[k] !in f.nulling)
            && (rule.Sequence? ==> rule.item !in f.nullable)
            && (rule.Sequence? && rule.separator.Some? ==> rule.separator.value in f.productive && rule.separator.value !in f.nullable)
  {
    assert RuleUsed(x.xrls[r], f.productive, f.accessible, f.nulling);
    var rule := x.xrls[r];
    assert Closed(x, f.productive) && EdgesAre(x, f.e) && NoCountedNullable(x, f.nullable);
    hide NullableIs, ProductiveIs, AccessibleIs, NullingIs, UsedIs, EdgesAre;
    var m: nat := NotNulling(rule, f.nulling);
    assert Covered(rule, f.productive);
    MarkedMeans(x, f, rule.lhs);
    MarkedMeans(x, f, m);
    SomeLhs(x, f, m);
    EdgeLeadsTo(x, f, r, m);
    if rule.Sequence? {
      SequenceMentions(rule);
      assert NoneIn(Mentions(rule), f.nullable);
    }
  }

  /** A rule that is not nulling mentions a symbol that is not. */
  lemma {:induction false} NotNulling(rule: Xrl, nulling: set<nat>) returns (m: nat)
    requires !RuleNulling(rule, nulling)
    ensures m in Mentions(rule) && m !in nulling && RhsOf(rule) != []
    ensures rule.Bnf? ==> m in rule.rhs
  {
    if !All(RhsOf(rule), nulling) {
      var k :| 0 <= k < |RhsOf(rule)| && RhsOf(rule)[k] !in nulling;
      m := RhsOf(rule)[k];
    } else {
      m := rule.separator.value;
      SequenceMentions(rule);
    }
  }

  /** A productive symbol that no rule derives is a terminal. */
  lemma {:induction false} SomeLhs(x: External, f: Findings, m: nat)
    requires GrammarGiven(x) && Taken(x, f) && m in f.productive && m !in f.nulling
    ensures LeadsTo(x, f.e, m)
  {
    var z := x.terminals + set s: nat | s < x.xsyCount && IsLhs(x, s);
    hide AccessibleIs, NullingIs, UsedIs, EdgesAre;
    forall s | s in f.nullable
      ensures s in z
    {
      NullableLhs(x, f.nullable, s);
    }
    forall r | 0 <= r < |x.xrls|
      ensures x.xrls[r].lhs in z
    {
      assert IsLhs(x, x.xrls[r].lhs);
    }
    assert Closed(x, z);
    assert m in z;
    MarkedMeans(x, f, m);
  }

  lemma {:induction false} NullableLhs(x: External, nullable: set<nat>, s: nat)
    requires GrammarGiven(x) && NullableIs(x, nullable) && s in nullable
    ensures IsLhs(x, s) && s < x.xsyCount
  {
    var base: set<nat> :| BaseIs(x, base) && Least(x, base, nullable);
    hide NullableIs;
    var z := set s: nat | s < x.xsyCount && IsLhs(x, s);
    forall r | 0 <= r < |x.xrls|
      ensures x.xrls[r].lhs in z
    {
      assert IsLhs(x, x.xrls[r].lhs);
    }
    assert Closed(x, z);
    forall s | s in base
      ensures s in z
    {
      assert EmptyLhs(x, s);
    }
  }

  lemma {:induction false} EdgeLeadsTo(x: External, f: Findings, r: nat, m: nat)
    requires Taken(x, f) && r < |x.xrls| && m in Mentions(x.xrls[r])
    ensures LeadsTo(x, f.e, m) ==> LeadsTo(x, f.e, x.xrls[r].lhs)
  {
    assert EdgesAre(x, f.e);
    hide Taken, LeadsTo, Mentions, EdgesAre;
    if LeadsTo(x, f.e, m) {
      EdgeLeads(x, f.e, r, m);
    }
  }

  lemma {:induction false} CensusReady(x: External, f: Findings)
    requires GrammarGiven(x) && Taken(x, f)
    ensures Ready(x, AsCensus(f))
  {
    NullsFit(x, f);
    assert x.start in f.productive && x.start !in f.nulling && x.start in f.accessible;
    hide Taken, GrammarGiven, NullsOk, RuleReady;
    forall s | s in f.accessible
      ensures s < x.xsyCount
    {
      KnownBound(x, f, s);
    }
    forall r | r in f.used
      ensures RuleReady(x, AsCensus(f), r)
    {
      UsedReady(x, f, r);
    }
  }

  // ---- The census is true when separators can be derived ----

  /** The symbols found nullable are those that derive nothing. */
  lemma {:induction false} NullableTrue(x: External, nullable: set<nat>)
    requires GrammarGiven(x) && NullableIs(x, nullable)
    ensures forall s: nat :: s in nullable <==> DerivesNothing(x, s)
  {
    hide GrammarGiven, NullableIs;
    forall s: nat
      ensures s in nullable <==> DerivesNothing(x, s)
    {
      if s in nullable {
        NullableIsNothing(x, nullable, s);
      }
      if DerivesNothing(x, s) {
        var i: nat :| XDerives(x, {}, s, i, i);
        var t :| XTreeFor(x, {}, t, s, i, i);
        NothingIsNullable(x, nullable, t, s, i);
      }
    }
  }

  lemma {:induction false} NullingTrue(x: External, f: Findings, s: nat)
    requires Taken(x, f) && s in f.nulling
    ensures OnlyNothing(x, s)
  {
    MarkedMeans(x, f, s);
    assert EdgesAre(x, f.e);
    hide Taken, EdgesAre, LeadsTo;
    forall toks: set<Token>, i: nat, j: nat | TokensOk(toks) && XDerives(x, toks, s, i, j)
      ensures i == j
    {
      XForward(x, toks, s, i, j);
      var t :| XTreeFor(x, toks, t, s, i, j);
      if i < j {
        SomethingLeads(x, f.e, toks, t, s, i, j);
      }
    }
  }

  /** A rule that derives something is used, unless it is a sequence that is dropped. */
  lemma {:induction false} DerivingIsUsed(x: External, f: Findings, toks: set<Token>, r: nat, syms: seq<nat>, i: nat, j: nat)
    requires GrammarGiven(x) && Taken(x, f)
    requires DerivesSome(x, toks, r, syms, i, j) && x.xrls[r].lhs in f.accessible
    ensures r in f.used || Dropped(x, f, r)
    ensures forall k :: 0 <= k < |syms| ==> syms[k] in f.productive
    ensures syms != []
  {
    var points :| SpansAt(x, toks, syms, points) && Between(points, |syms|, i, j);
    assert UsedIs(x, f.productive, f.accessible, f.nulling, f.used);
    assert NullableIs(x, f.nullable) && ProductiveIs(x, f.nullable, f.productive) && EdgesAre(x, f.e);
    var rule := x.xrls[r];
    hide Taken, Expands, NullableIs, ProductiveIs, EdgesAre, GrammarGiven, XDerives, Mentions;
    forall k | 0 <= k < |syms|
      ensures syms[k] in f.productive
    {
      SymbolProductive(x, f.nullable, f.productive, toks, syms[k], points[k], points[k + 1]);
    }
    ExpandsFrom(rule, syms);
    ExpandsRhs(rule, syms);
    SomeStep(points);
    var k :| 0 <= k < |points| - 1 && points[k] < points[k + 1];
    SymbolNotMarked(x, f, toks, syms[k], points[k], points[k + 1]);
    MentionedNotNulling(rule, f.nulling, syms[k]);
    assert rule.Sequence? ==> rule.item in f.productive;
  }

  /** A dropped sequence derives single items only, and those are tokens of its left-hand side. */
  lemma {:induction false} DroppedDerives(x: External, f: Findings, toks: set<Token>, r: nat, syms: seq<nat>, i: nat, j: nat)
    requires Dropped(x, f, r) && OnlyOwnTokens(x, r) && DerivesSome(x, toks, r, syms, i, j)
    requires syms != [] && forall k :: 0 <= k < |syms| ==> syms[k] in f.productive
    ensures OwnToken(x, toks, x.xrls[r].lhs, i, j)
  {
    WithoutSeparator(x.xrls[r], syms);
    var points :| SpansAt(x, toks, syms, points) && Between(points, |syms|, i, j);
    assert XDerives(x, toks, syms[0], points[0], points[1]);
  }

  /** An expansion that does without the separator is a single item. */
  lemma {:induction false} WithoutSeparator(rule: Xrl, syms: seq<nat>)
    requires rule.Sequence? && rule.separator.Some? && Expands(rule, syms) && syms != [] && rule.separator.value !in syms
    ensures syms == [rule.item]
  {
    if n: nat :| syms == Items(rule.item, rule.separator, n) {
      ItemsHaveSeparator(rule, n);
    }
  }

  lemma {:induction false} ItemsHaveSeparator(rule: Xrl, n: nat)
    requires rule.Sequence? && rule.separator.Some?
    ensures n > 0 ==> rule.separator.value in Items(rule.item, rule.separator, n)
    ensures n == 0 ==> Items(rule.item, rule.separator, n) == [rule.item]
  {
    if n > 0 {
      var items := Items(rule.item, rule.separator, n - 1);
      assert (items + [rule.separator.value] + [rule.item])[|items|] == rule.separator.value;
    }
  }

  lemma {:induction false} SymbolProductive(x: External, nullable: set<nat>, productive: set<nat>, toks: set<Token>, s: nat, i: nat, j: nat)
    requires GrammarGiven(x) && NullableIs(x, nullable) && ProductiveIs(x, nullable, productive) && XDerives(x, toks, s, i, j)
    ensures s in productive
  {
    var t :| XTreeFor(x, toks, t, s, i, j);
    DerivedIsProductive(x, nullable, productive, toks, t, s, i, j);
  }

  lemma {:induction false} SymbolNotMarked(x: External, f: Findings, toks: set<Token>, s: nat, i: nat, j: nat)
    requires Taken(x, f) && XDerives(x, toks, s, i, j) && i < j
    ensures s !in f.nulling
  {
    MarkedMeans(x, f, s);
    assert EdgesAre(x, f.e);
    hide Taken, EdgesAre, LeadsTo;
    var t :| XTreeFor(x, toks, t, s, i, j);
    SomethingLeads(x, f.e, toks, t, s, i, j);
  }

  lemma {:induction false} ExpandsRhs(rule: Xrl, syms: seq<nat>)
    requires Expands(rule, syms) && syms != []
    ensures forall s :: s in RhsOf(rule) ==> s in syms
  {
    ExpandsFrom(rule, syms);
  }

  lemma {:induction false} MentionedNotNulling(rule: Xrl, nulling: set<nat>, s: nat)
    requires s in Mentions(rule) && s !in nulling
    ensures !RuleNulling(rule, nulling)
  {
    if s in RhsOf(rule) {
      var k :| 0 <= k < |RhsOf(rule)| && RhsOf(rule)[k] == s;
    }
  }

  lemma {:induction false} CensusTrue(x: External, f: Findings)
    requires GrammarGiven(x) && Taken(x, f) && SeparatorsHarmless(x, f)
    ensures CensusOk(x, AsCensus(f))
  {
    assert NullableIs(x, f.nullable);
    NullableTrue(x, f.nullable);
    hide Taken, GrammarGiven, SeparatorsHarmless, DerivesSome, OnlyNothing, OwnToken;
    forall s: nat | s in f.nulling
      ensures OnlyNothing(x, s)
    {
      NullingTrue(x, f, s);
    }
    forall toks: set<Token>, r: nat, syms: seq<nat>, i: nat, j: nat | DerivesSome(x, toks, r, syms, i, j) && RuleLhs(x, r) in f.accessible * f.productive
      ensures r in f.used || OwnToken(x, toks, RuleLhs(x, r), i, j)
    {
      DerivingRule(x, f, toks, r, syms, i, j);
    }
    CensusFits(x, f);
  }

  ghost function RuleLhs(x: External, r: nat): nat {
    if r < |x.xrls| then x.xrls[r].lhs else x.xsyCount
  }

  lemma {:induction false} DerivingRule(x: External, f: Findings, toks: set<Token>, r: nat, syms: seq<nat>, i: nat, j: nat)
    requires GrammarGiven(x) && Taken(x, f) && SeparatorsHarmless(x, f)
    requires DerivesSome(x, toks, r, syms, i, j) && RuleLhs(x, r) in f.accessible
    ensures r in f.used || OwnToken(x, toks, RuleLhs(x, r), i, j)
  {
    hide GrammarGiven, Taken, OwnToken, OnlyOwnTokens, Dropped;
    assert r < |x.xrls|;
    hide DerivesSome;
    DerivingIsUsed(x, f, toks, r, syms, i, j);
    if r !in f.used {
      assert Dropped(x, f, r);
      DroppedDerives(x, f, toks, r, syms, i, j);
    }
  }

  lemma {:induction false} CensusFits(x: External, f: Findings)
    requires forall s: nat :: s in f.nullable <==> DerivesNothing(x, s)
    requires forall s: nat :: s in f.nulling ==> OnlyNothing(x, s)
    requires forall toks: set<Token>, r: nat, syms: seq<nat>, i: nat, j: nat ::
               DerivesSome(x, toks, r, syms, i, j) && RuleLhs(x, r) in f.accessible * f.productive ==> r in f.used || OwnToken(x, toks, RuleLhs(x, r), i, j)
    ensures CensusOk(x, AsCensus(f))
  {
    hide DerivesNothing, OnlyNothing;
    forall toks: set<Token>, r: nat, syms: seq<nat>, i: nat, j: nat | DerivesSome(x, toks, r, syms, i, j)
      ensures r < |x.xrls| && RuleLhs(x, r) == x.xrls[r].lhs
    {
    }
    hide DerivesSome;
  }

  // ---- And only then: what is productive derives something somewhere ----

  /** All tokens moved by `d`. */
  ghost function MovedTokens(toks: set<Token>, d: nat): set<Token> {
    set t | t in toks :: Token(t.sym, t.from + d, t.to + d)
  }

  ghost function MovedTree(t: XTree, d: nat): XTree
    decreases t
  {
    match t
    case XLeaf => XLeaf
    case XNode(r, syms, points, kids) =>
      XNode(r, syms, seq(|points|, k requires 0 <= k < |points| => points[k] + d), seq(|kids|, k requires 0 <= k < |kids| => MovedTree(kids[k], d)))
  }

  lemma {:induction false} TreeMoves(x: External, toks: set<Token>, toks': set<Token>, t: XTree, s: nat, i: nat, j: nat, d: nat)
    requires XTreeFor(x, toks, t, s, i, j) && MovedTokens(toks, d) <= toks'
    ensures XTreeFor(x, toks', MovedTree(t, d), s, i + d, j + d)
    decreases t
  {
    match t
    case XLeaf =>
      assert Token(s, i + d, j + d) in MovedTokens(toks, d);
    case XNode(r, syms, points, kids) =>
      hide Expands, MovedTokens;
      var u := MovedTree(t, d);
      forall k | 0 <= k < |kids|
        ensures XTreeFor(x, toks', u.kids[k], syms[k], u.points[k], u.points[k + 1])
      {
        TreeMoves(x, toks, toks', kids[k], syms[k], points[k], points[k + 1], d);
      }
  }

  /** A symbol that derives something or nothing over some tokens. */
  ghost predicate DerivesSomewhere(x: External, s: nat) {
    exists toks: set<Token>, j: nat :: TokensOk(toks) && XDerives(x, toks, s, 0, j)
  }

  ghost predicate SpansSomewhere(x: External, syms: seq<nat>) {
    exists toks: set<Token>, j: nat :: TokensOk(toks) && XSpans(x, toks, syms, 0, j)
  }

  lemma {:induction false} MoreTokens(x: External, toks: set<Token>, toks': set<Token>, s: nat, i: nat, j: nat, d: nat)
    requires XDerives(x, toks, s, i, j) && MovedTokens(toks, d) <= toks'
    ensures XDerives(x, toks', s, i + d, j + d)
  {
    var t :| XTreeFor(x, toks, t, s, i, j);
    TreeMoves(x, toks, toks', t, s, i, j, d);
  }

  lemma {:induction false} NotMoved(toks: set<Token>)
    ensures MovedTokens(toks, 0) == toks
  {
    forall t | t in toks
      ensures t in MovedTokens(toks, 0)
    {
      assert t == Token(t.sym, t.from + 0, t.to + 0);
    }
  }

  lemma {:induction false} AllSomewhere(x: External, syms: seq<nat>)
    requires forall k :: 0 <= k < |syms| ==> DerivesSomewhere(x, syms[k])
    ensures SpansSomewhere(x, syms)
    decreases |syms|
  {
    hide XDerives, XSpans;
    if syms == [] {
      SpansNone(x, {}, 0);
    } else {
      var n := |syms| - 1;
      AllSomewhere(x, syms[..n]);
      var toks: set<Token>, m: nat :| TokensOk(toks) && XSpans(x, toks, syms[..n], 0, m);
      assert DerivesSomewhere(x, syms[n]);
      var toks': set<Token>, j: nat :| TokensOk(toks') && XDerives(x, toks', syms[n], 0, j);
      var all := toks + MovedTokens(toks', m);
      SpansMore(x, toks, all, syms[..n], 0, m);
      MoreTokens(x, toks', all, syms[n], 0, j, m);
      SpansOne(x, all, syms[n], m, j + m);
      SpansConcat(x, all, syms[..n], [syms[n]], 0, m, j + m);
      assert syms == syms[..n] + [syms[n]];
    }
  }

  lemma {:induction false} SpansMore(x: External, toks: set<Token>, toks': set<Token>, syms: seq<nat>, i: nat, j: nat)
    requires XSpans(x, toks, syms, i, j) && toks <= toks'
    ensures XSpans(x, toks', syms, i, j)
  {
    hide XDerives;
    NotMoved(toks);
    var points :| SpansAt(x, toks, syms, points) && Between(points, |syms|, i, j);
    forall k | 0 <= k < |syms|
      ensures XDerives(x, toks', syms[k], points[k], points[k + 1])
    {
      MoreTokens(x, toks, toks', syms[k], points[k], points[k + 1], 0);
    }
    assert SpansAt(x, toks', syms, points);
  }

  /** The symbols found productive are those that derive something, or nothing, somewhere. */
  lemma {:induction false} ProductiveTrue(x: External, nullable: set<nat>, productive: set<nat>)
    requires GrammarGiven(x) && NullableIs(x, nullable) && ProductiveIs(x, nullable, productive)
    ensures forall s: nat :: s in productive <==> DerivesSomewhere(x, s)
  {
    forall s: nat
      ensures s in productive <==> DerivesSomewhere(x, s)
    {
      if s in productive {
        ProductiveDerives(x, nullable, productive, s);
      }
      if DerivesSomewhere(x, s) {
        var toks: set<Token>, j: nat :| TokensOk(toks) && XDerives(x, toks, s, 0, j);
        SymbolProductive(x, nullable, productive, toks, s, 0, j);
      }
    }
  }

  lemma {:induction false} ProductiveDerives(x: External, nullable: set<nat>, productive: set<nat>, s: nat)
    requires GrammarGiven(x) && NullableIs(x, nullable) && ProductiveIs(x, nullable, productive) && s in productive
    ensures DerivesSomewhere(x, s)
  {
    NullableTrue(x, nullable);
    hide NullableIs, DerivesSomewhere, Mentions;
    var z := set s: nat | s < x.xsyCount && DerivesSomewhere(x, s);
    forall s | s in nullable + x.terminals
      ensures s in z
    {
      BaseDerives(x, nullable, s);
    }
    forall r | 0 <= r < |x.xrls| && Covered(x.xrls[r], z)
      ensures x.xrls[r].lhs in z
    {
      CoveredDerives(x, r, z);
    }
    assert Closed(x, z);
  }

  lemma {:induction false} BaseDerives(x: External, nullable: set<nat>, s: nat)
    requires GrammarGiven(x) && NullableIs(x, nullable) && (s in nullable ==> DerivesNothing(x, s)) && s in nullable + x.terminals
    ensures DerivesSomewhere(x, s) && s < x.xsyCount
  {
    if s in x.terminals {
      var toks := {Token(s, 0, 1)};
      assert XTreeFor(x, toks, XLeaf, s, 0, 1);
      assert TokensOk(toks) && XDerives(x, toks, s, 0, 1);
    } else {
      NothingAnywhere(x, {}, s, 0);
      NullableLhs(x, nullable, s);
      assert TokensOk({}) && XDerives(x, {}, s, 0, 0);
    }
  }

  lemma {:induction false} CoveredDerives(x: External, r: nat, z: set<nat>)
    requires GrammarGiven(x) && r < |x.xrls| && Covered(x.xrls[r], z) && forall s :: s in z ==> DerivesSomewhere(x, s)
    ensures DerivesSomewhere(x, x.xrls[r].lhs) && x.xrls[r].lhs < x.xsyCount
  {
    var syms := RhsOf(x.xrls[r]);
    assert x.xrls[r].lhs < x.xsyCount;
    if x.xrls[r].Sequence? {
      OneItem(x.xrls[r]);
    }
    assert Expands(x.xrls[r], syms);
    assert forall k :: 0 <= k < |syms| ==> syms[k] in syms;
    hide DerivesSomewhere, Expands, GrammarGiven;
    AllSomewhere(x, syms);
    var toks: set<Token>, j: nat :| TokensOk(toks) && XSpans(x, toks, syms, 0, j);
    RuleDerives(x, toks, r, syms, 0, j);
  }

  /** A single item needs no separator: a dropped sequence derives it, and if the census is
      true it must be a token of the left-hand side. */
  lemma {:induction false} TrueSeparators(x: External, f: Findings, r: nat)
    requires GrammarGiven(x) && Taken(x, f) && CensusOk(x, AsCensus(f)) && Dropped(x, f, r)
    ensures OnlyOwnTokens(x, r)
  {
    var rule := x.xrls[r];
    SequenceLhs(x, f, r);
    assert UsedIs(x, f.productive, f.accessible, f.nulling, f.used);
    hide GrammarGiven, Taken, XDerives, OwnToken;
    forall toks: set<Token>, i: nat, j: nat | TokensOk(toks) && XDerives(x, toks, rule.item, i, j) && i < j
      ensures OwnToken(x, toks, rule.lhs, i, j)
    {
      SpansOne(x, toks, rule.item, i, j);
      OneItem(rule);
      assert DerivesSome(x, toks, r, [rule.item], i, j);
    }
  }

  /** Where no sequence's left-hand side is a terminal, dropping one is never harmless: its item
      derives something. */
  lemma {:induction false} DroppedIsLost(x: External, f: Findings, r: nat)
    requires GrammarGiven(x) && Taken(x, f) && Dropped(x, f, r) && x.xrls[r].lhs !in x.terminals
    ensures !OnlyOwnTokens(x, r)
  {
    assert NullableIs(x, f.nullable) && ProductiveIs(x, f.nullable, f.productive);
    ProductiveDerives(x, f.nullable, f.productive, x.xrls[r].item);
    var toks: set<Token>, j: nat :| TokensOk(toks) && XDerives(x, toks, x.xrls[r].item, 0, j);
    ItemNotEmpty(x, f, r, toks, j);
  }

  ghost predicate NoSequenceTerminal(x: External) {
    forall r :: 0 <= r < |x.xrls| && x.xrls[r].Sequence? ==> x.xrls[r].lhs !in x.terminals
  }

  lemma {:induction false} HarmlessIsNone(x: External, f: Findings)
    requires GrammarGiven(x) && Taken(x, f) && NoSequenceTerminal(x)
    ensures SeparatorsHarmless(x, f) <==> SeparatorsOk(x, f)
  {
    hide GrammarGiven, Taken, OnlyOwnTokens;
    forall r: nat | Dropped(x, f, r)
      ensures !OnlyOwnTokens(x, r)
    {
      DroppedIsLost(x, f, r);
    }
  }

  lemma {:induction false} SequenceLhs(x: External, f: Findings, r: nat)
    requires GrammarGiven(x) && Taken(x, f) && r < |x.xrls| && x.xrls[r].Sequence? && x.xrls[r].item in f.productive
    ensures x.xrls[r].lhs in f.productive
  {
    assert Closed(x, f.productive);
    hide NullableIs, AccessibleIs, NullingIs, UsedIs, EdgesAre;
    assert Covered(x.xrls[r], f.productive);
  }

  lemma {:induction false} ItemNotEmpty(x: External, f: Findings, r: nat, toks: set<Token>, j: nat)
    requires GrammarGiven(x) && Taken(x, f) && TokensOk(toks) && r < |x.xrls| && x.xrls[r].Sequence?
    requires XDerives(x, toks, x.xrls[r].item, 0, j)
    ensures 0 < j
  {
    assert NullableIs(x, f.nullable);
    NullableTrue(x, f.nullable);
    SequenceMentions(x.xrls[r]);
    assert NoneIn(Mentions(x.xrls[r]), f.nullable);
    hide Taken, GrammarGiven, XDerives, Mentions;
    if j == 0 {
      EmptyIsNothing(x, toks, x.xrls[r].item, 0);
    }
  }

  // ---- Which grammars are accepted ----

  /** A sequence repeats, or is separated by, what can derive nothing. */
  ghost predicate CountsNothing(x: External, r: nat) {
    r < |x.xrls| && x.xrls[r].Sequence? && exists s :: s in Mentions(x.xrls[r]) && DerivesNothing(x, s)
  }

  /** The symbol has rules, but they lead to no terminal. */
  ghost predicate Barren(x: External, s: nat) {
    IsLhs(x, s) && exists e: Relation :: EdgesAre(x, e) && NoTerminal(x, e, s)
  }

  /** Grammars that precomputation accepts: no sequence counts what may be nothing, the start symbol
      derives something or nothing somewhere, and neither it nor a terminal is barren. */
  ghost predicate Acceptable(x: External) {
    && (forall r: nat :: !CountsNothing(x, r))
    && DerivesSomewhere(x, x.start)
    && (forall s: nat :: s in x.terminals ==> !Barren(x, s))
    && !Barren(x, x.start)
  }

  lemma {:induction false} CountedTrue(x: External, nullable: set<nat>)
    requires GrammarGiven(x) && NullableIs(x, nullable)
    ensures NoCountedNullable(x, nullable) <==> forall r: nat :: !CountsNothing(x, r)
  {
    NullableTrue(x, nullable);
    hide GrammarGiven, NullableIs, DerivesNothing, Mentions;
    if NoCountedNullable(x, nullable) {
      forall r: nat | r < |x.xrls| && x.xrls[r].Sequence?
        ensures !CountsNothing(x, r)
      {
        assert NoneIn(Mentions(x.xrls[r]), nullable);
      }
    }
    if forall r: nat :: !CountsNothing(x, r) {
      forall r | 0 <= r < |x.xrls| && x.xrls[r].Sequence?
        ensures NoneIn(Mentions(x.xrls[r]), nullable)
      {
        assert !CountsNothing(x, r);
      }
    }
  }

  /** The symbols marked nulling are the barren ones. */
  lemma {:induction false} BarrenTrue(x: External, e: Relation, nulling: set<nat>)
    requires EdgesAre(x, e) && NullingIs(x, e, nulling)
    ensures forall s: nat :: s in nulling <==> Barren(x, s)
  {
    hide Edge, IsLhs, NoTerminal;
    forall e': Relation | EdgesAre(x, e')
      ensures e' == e
    {
      forall p: (nat, nat)
        ensures p in e <==> p in e'
      {
        assert p == (p.0, p.1);
      }
    }
  }

  /** The census serves the rewrite exactly when every sequence that it drops would add nothing. */
  lemma {:induction false} CensusExact(x: External, f: Findings)
    requires GrammarGiven(x) && Taken(x, f)
    ensures Ready(x, AsCensus(f)) && (CensusOk(x, AsCensus(f)) <==> SeparatorsHarmless(x, f))
  {
    hide GrammarGiven, Taken, Ready, CensusOk, OnlyOwnTokens, Dropped;
    CensusReady(x, f);
    if CensusOk(x, AsCensus(f)) {
      forall r: nat | Dropped(x, f, r)
        ensures OnlyOwnTokens(x, r)
      {
        TrueSeparators(x, f, r);
      }
    }
    if SeparatorsHarmless(x, f) {
      CensusTrue(x, f);
    }
  }

  /** From the start symbol, each symbol is mentioned by a rule of the one before, up to `s`. */
  ghost predicate MentionPath(x: External, path: seq<nat>, s: nat) {
    && path != [] && path[0] == x.start && path[|path| - 1] == s
    && forall k: nat :: k < |path| - 1 ==> Edge(x, path[k], path[k + 1])
  }

  ghost predicate Mentioned(x: External, s: nat) {
    exists path :: MentionPath(x, path, s)
  }

  /** What the rewrite is told: the symbols to know are those that are mentioned on the way from
      the start symbol and derive something or nothing, nulling are the barren ones that derive
      nothing, and nullable all that do. */
  lemma {:induction false} CensusMeans(x: External, f: Findings, s: nat)
    requires GrammarGiven(x) && Taken(x, f)
    ensures s in AsCensus(f).known <==> Mentioned(x, s) && DerivesSomewhere(x, s)
    ensures s in AsCensus(f).nulling <==> Barren(x, s) && DerivesSomewhere(x, s)
    ensures s in AsCensus(f).nullable <==> DerivesNothing(x, s)
  {
    TakenParts(x, f);
    hide GrammarGiven, Taken, NullableIs, ProductiveIs, EdgesAre, NullingIs, AccessibleIs, Barren, DerivesSomewhere, DerivesNothing, Mentioned;
    NullableTrue(x, f.nullable);
    ProductiveTrue(x, f.nullable, f.productive);
    BarrenTrue(x, f.e, f.nulling);
    MentionedTrue(x, f.e, f.accessible, s);
  }

  lemma {:induction false} TakenParts(x: External, f: Findings)
    requires Taken(x, f)
    ensures EdgesAre(x, f.e) && NullableIs(x, f.nullable) && ProductiveIs(x, f.nullable, f.productive)
    ensures AccessibleIs(x, f.e, f.accessible) && NullingIs(x, f.e, f.nulling)
  {
    hide EdgesAre, NullableIs, ProductiveIs, AccessibleIs, NullingIs, UsedIs;
  }

  /** The symbols found accessible are those mentioned on the way from the start symbol. */
  lemma {:induction false} MentionedTrue(x: External, e: Relation, accessible: set<nat>, s: nat)
    requires EdgesAre(x, e) && AccessibleIs(x, e, accessible)
    ensures s in accessible <==> Mentioned(x, s)
  {
    hide Edge;
    if s == x.start {
      assert MentionPath(x, [s], s);
    }
    if path :| IsPath(e, path, x.start, s) {
      forall k: nat | k < |path| - 1
        ensures Edge(x, path[k], path[k + 1])
      {
        assert (path[k], path[k + 1]) in e;
      }
      assert MentionPath(x, path, s);
    }
    if path :| MentionPath(x, path, s) {
      forall k | 0 <= k < |path| - 1
        ensures (path[k], path[k + 1]) in e
      {
        assert Edge(x, path[k], path[k + 1]);
      }
      assert |path| >= 2 ==> IsPath(e, path, x.start, s);
    }
  }
}
